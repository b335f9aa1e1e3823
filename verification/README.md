# Public booking and cancellation of a clinic appointment system

This project models the public side of a clinic appointment system: the
JSON route that lists a doctor's free times for a date, the form handler that
books an appointment, and the two steps of the cancellation link. It also
models the appointment record behind them: its status values and the methods
that change the status, its date and status predicates, and the storage
constraints on the appointment table.

The model has three layers.

- **Values.** `Text` holds Python's `str.strip` and decimal digits. `Clock`
  holds `strptime`/`strftime` for `%H:%M` and `%Y-%m-%d`, and calendar dates.
  `Models` holds the records, the table constraints and the insert that
  refuses a clash.
- **Functional descriptions of the routes.**
  - `Slots.Disponibilites` is the listing route. `Slots.SlotWalk` is its
    `while` loop.
  - `Booking.Book` is the booking handler. It is staged as `Book` (lookup and
    validation), `Reserve` (find or create the patient, then the re-check)
    and `Commit` (the insert and the notification step).
  - `Cancellation.CancelPage` is the cancellation page and
    `Cancellation.ConfirmCancel` is the cancellation POST.
- **Imperative versions.** `Slots.GenerateSlots` is the loop itself, and
  `Store.Database` holds the tables, with appointments as objects whose
  status is updated in place. Each of these methods is proved equal to the
  matching function, and the properties are proved about the functions.

Times of day are minutes after midnight on 1 January 1900, the date that
`strptime` gives to a time without a date. The walk adds the slot length
until it reaches the end time. Python's datetime arithmetic fails outside
the years 1 to 9999, and the route turns that failure into an error response.
The model keeps this:

- A slot so long that the first step passes the end of year 9999 (about
  4.26 billion minutes) ends the walk with an error listing. A shorter long
  slot, such as 10000 minutes, lists the start time alone.
- A negative slot, when the start is before the end, ends the walk with an
  error listing: the walk goes backwards to year 1 and then fails, so it does
  not loop forever. When the start is not before the end, the loop never
  runs and the listing is empty, whatever the slot length.
- A slot length of 0 falls back to 30, because `0 or 30` is 30.

Python integers are unbounded, but an SQLite INTEGER parameter is a signed
64-bit value (`Models.SqlInteger`), and a query that binds a wider doctor id
raises. The listing route answers such an id with the error listing. The
booking handler has already committed a new patient when its re-check query
raises, so it reports an error, keeps the patient and stores no appointment
(`Booking.UnbindableDoctorIdRefused`).

Two behaviours of the code are worth knowing; lemmas capture both.

- **Cancelled slots are listed but cannot be booked.** The listing and the
  re-check before the insert look only at *confirmed* appointments. The
  `unique_creneau` constraint, however, covers every appointment whatever its
  status. A slot freed by a cancellation, a finished appointment or a no-show
  is therefore listed as free (`Cancellation.CancelledSlotReleased`). Booking
  it passes the re-check and then fails on the constraint, and the handler
  reports that the slot has just been taken (`Booking.NonConfirmedSlotConflicts`,
  `Cancellation.CancelledSlotStillConflicts`).
- **Late errors keep what was committed.** The booking handler commits a new
  patient before the re-check, and commits the appointment before the
  notification step. A later exception therefore still reports an error,
  although those rows stay. The storage is taken to enforce neither foreign
  keys nor string lengths, as SQLite does by default. Under that assumption,
  an unknown doctor id makes the notification step fail, when it needs the
  doctor's name for an email, after the appointment has been stored. This
  error happens exactly then (`Booking.ReserveOutcomes`,
  `Booking.CommitOutcomes`, `Booking.FreeSlotBooked`). The cancellation
  POST fails the same way after cancelling (`Cancellation.CancelErrorIff`).

## Model

| member | source | states |
|---|---|---|
| Text.Strip | app/routes/public.py:138-143 | Python's `str.strip()` with no argument: the leading, then the trailing `isspace` characters are cut; its shape is stated by Text.StripShape and Text.StripEmptyIff |
| Text.LeadingSpaces | app/routes/public.py:138-143 | the count of white space `strip` cuts on the left: every counted character is white space and the first one after them is not |
| Text.TrailingSpaces | app/routes/public.py:138-143 | the count of white space `strip` cuts on the right: every counted character is white space and the last one before them is not |
| Text.StripShape | app/routes/public.py:138-143 | `strip` returns the slice of the input between its leading and trailing white space: both ends are not white space, and everything cut off is white space |
| Text.StripEmptyIff | app/routes/public.py:138-146 | a stripped field is empty, and so fails `all([...])`, exactly when the input held only white space |
| Clock.ParseTime | app/routes/public.py:113-114 | a time that parses as `%H:%M` gives minutes in one day |
| Clock.ParseFormatTime | app/routes/public.py:113-119 | formatting a time of day with `%H:%M` and parsing it back gives the same minute |
| Clock.FormatParseTime | app/routes/public.py:113-119 | a five-character time that parses is exactly the `%H:%M` rendering of its value |
| Clock.FormatTime | app/routes/public.py:119 | `strftime('%H:%M')` of a time of day is five characters with a colon in the middle; Clock.ParseFormatTime and Clock.FormatParseTime make it the inverse of `strptime` |
| Clock.ClockLabel | app/routes/public.py:119 | `strftime('%H:%M')` of a datetime at any offset from 1900-01-01 prints only the time of day (the offset modulo a day); Clock.ClockLabelInjective shows that labels tell the minutes of one day apart |
| Clock.ClockLabelInjective | app/routes/public.py:119-120 | two different minutes of a day get different labels, so the membership test against taken times compares times |
| Clock.ParseDate | app/routes/public.py:91 | a string accepted as `%Y-%m-%d` denotes a real calendar date (month 1-12, day within the month, leap years) |
| Clock.ParseFormatDate | app/routes/public.py:91 | every valid date written as `%Y-%m-%d` parses back to itself |
| Models.Appointment.constructor | models.py:100-113 | a new appointment holds the given patient, doctor, clinic, date, time, reason and token, with status `confirme` |
| Models.Appointment.Annuler | models.py:132-135 | cancelling sets the status to `annule` from any status; the other columns cannot change |
| Models.Appointment.Terminer | models.py:137-140 | marking as done sets the status to `termine` from any status |
| Models.Appointment.MarquerAbsent | models.py:142-145 | marking a no-show sets the status to `absent` from any status |
| Models.Appointment.EstPasse | models.py:147-150 | an appointment is past exactly when its date is strictly before today: one dated today or later is not past |
| Models.Appointment.EstAnnule | models.py:152-158 | a cancelled appointment is never confirmed |
| Models.Appointment.EstConfirme | models.py:156-158 | the appointment has the status `confirme`, the only status that the listing (Slots.TakenHours) and the re-check (Models.ConfirmedAt) count; Models.Appointment.EstAnnule shows it excludes `annule` |
| Models.Insert | models.py:112-127 | the insert is refused exactly on a clash (Models.Clashes: a stored row has the same doctor, date and time, any status, or the same token); otherwise the row is appended at the end |
| Models.InsertKeepsInvariant | models.py:112-127 | an accepted insert keeps both uniqueness constraints (one row per doctor, date and time; one row per token) |
| Models.NoOtherHolder | models.py:124-127 | with unique slots, a slot whose row is not confirmed has no confirmed holder |
| Models.FindByToken | app/routes/public.py:19 | the token lookup finds the first row holding the token, or reports that none does |
| Models.TokenNamesOneRow | models.py:112-113 | with unique tokens a token names at most one appointment: the row holding it is exactly the one the lookup finds |
| Models.PatientById | models.py:119 | the patient lookup by id returns a stored patient with that id, or reports that none has it |
| Models.PatientByIdIndex | models.py:119 | with ids assigned in order, id k names the k-th patient, and other ids name nobody |
| Slots.EffectiveDuree | app/routes/public.py:115 | the slot length is never 0: it is the stored length, or 30 when the column is NULL or 0 |
| Slots.SlotWalk | app/routes/public.py:117-122 | the `while current < fin` loop as a recursive walk: each time before `fin` is labelled and kept unless taken, and a step that leaves the datetime range raises; its properties are stated by Slots.WalkPositive, Slots.WalkOverflowIff, Slots.WalkNegative and Slots.WalkAvoidsTaken |
| Slots.GenerateSlots | app/routes/public.py:117-122 | the `while current < fin` loop computes exactly the walk: the kept labels in order, or the datetime overflow error |
| Slots.TakenHours | app/routes/public.py:103-109 | a time is in the taken list exactly when a confirmed appointment of this doctor on this date holds it |
| Slots.FirstAvailability | app/routes/public.py:97-100 | the availability row used is one of this doctor for this date; none is found only when no such row exists |
| Slots.TimesShape | app/routes/public.py:117-122 | the times visited are debut, debut+duree, … below fin: ascending, in the window, and their number is the ceiling of (fin-debut)/duree |
| Slots.TimesMembers | app/routes/public.py:117-122 | a minute is visited exactly when it lies in [debut, fin) on the grid of step duree from debut |
| Slots.KeptMembers | app/routes/public.py:120-121 | a visited time is kept exactly when its label is not among the taken times |
| Slots.KeptAscending | app/routes/public.py:117-122 | filtering out taken times keeps the times ascending |
| Slots.KeptNothingTaken | app/routes/public.py:120-121 | with nothing taken every visited time is kept |
| Slots.LabelsShape | app/routes/public.py:119-121 | the listed labels are the `%H:%M` labels of the kept times, one each, in order |
| Slots.LabelsDistinct | app/routes/public.py:119-121 | ascending times within a day give pairwise different labels |
| Slots.WalkPositive | app/routes/public.py:117-122 | for a positive length, within range, the walk's result is the labels of the grid times in the window that are not taken |
| Slots.WalkOverflowIff | app/routes/public.py:117-122 | for a positive length and a non-empty window within one day, the walk fails exactly when one step past the start leaves the datetime range |
| Slots.WalkNegative | app/routes/public.py:115-127 | a negative slot length with a non-empty window always ends in the overflow error, never in a listing |
| Slots.WalkAvoidsTaken | app/routes/public.py:119-121 | for any slot length, a taken time is never listed |
| Slots.WindowSlots | app/routes/public.py:112-122 | the listed times are exactly the untaken grid times of the window, ascending, with pairwise different labels |
| Slots.SlotCountNothingTaken | app/routes/public.py:117-122 | with nothing taken the listing has the ceiling of (fin-debut)/duree slots, and none for an empty window |
| Slots.NineToTen | app/routes/public.py:113-122 | 09:00 to 10:00 with 30-minute slots and nothing taken lists exactly 09:00 and 09:30 |
| Slots.Disponibilites | app/routes/public.py:87-127 | the listing route as a function of the tables: a malformed date, a doctor id that is not an SQLite INTEGER, an unknown doctor, an unparsable stored window and a failing walk give the error listing; its cases are stated by Slots.ListingFallbacks and Slots.ListedIff |
| Slots.ListingFallbacks | app/routes/public.py:90-127 | a bad date, a doctor id beyond the signed 64-bit range, an unknown doctor, a stored start or end time that `strptime` rejects, or a walk that raises gives the error listing; a doctor with no availability row for the date gets an empty list |
| Slots.ListedIff | app/routes/public.py:87-127 | for a known doctor id within the 64-bit range, with a parsed window and a positive length, a label is listed exactly when it is the label of a grid time in the window that no confirmed appointment holds |
| Booking.FindClinic | app/routes/public.py:133 | the clinic found has the slug; none is found only when no clinic has it |
| Booking.FindPatient | app/routes/public.py:153 | the patient found has the phone number, from any clinic; none is found only when nobody has it |
| Booking.FindOrCreatePatient | app/routes/public.py:153-162 | the patient with this phone number, or a new one of the booking clinic, appended; stated by Booking.FindOrCreateShape and Booking.FindOrCreateKeepsIds |
| Booking.Clean | app/routes/public.py:138-143 | name, phone, email and reason are stripped, date and time are taken as sent; Booking.MissingFieldIff states the validation on the stripped fields |
| Booking.Book | app/routes/public.py:130-228 | the booking handler as a function of the tables: clinic lookup, doctor id, validation and date parse, then Booking.Reserve; stated by Booking.BookStages, Booking.MissingFieldIff, Booking.FreeSlotBooked, Booking.UnbindableDoctorIdRefused, Booking.BookFrame and Booking.BookKeepsValid |
| Booking.Reserve | app/routes/public.py:152-174 | find or create the patient (committed at once), then the re-check against confirmed appointments, which raises for a doctor id beyond the 64-bit range, then Booking.Commit; stated by Booking.ReserveOutcomes and Booking.SlotTakenIff |
| Booking.Commit | app/routes/public.py:176-228 | the insert, refused on a clash, and the notification step, whose error keeps the row; stated by Booking.CommitOutcomes |
| Booking.FindOrCreateShape | app/routes/public.py:153-162 | the patient holds the stripped phone number, and is either an existing one or a new one of this clinic with the next id, the given name and the email (none when it is empty), appended |
| Booking.FindOrCreateKeepsIds | app/routes/public.py:153-162 | find-or-create keeps patient ids in order and returns a patient with a stored id |
| Booking.BookStages | app/routes/public.py:133-150 | a form rejected before the patient step changes nothing; every change is that stage's doing |
| Booking.MissingFieldIff | app/routes/public.py:137-148 | the "all fields required" refusal happens exactly when the clinic exists, the doctor id is an integer, and the id is 0, name or phone is blank, or date or time is empty; it changes nothing |
| Booking.CommitOutcomes | app/routes/public.py:176-228 | the insert is refused, adding nothing, exactly when the new row clashes with a stored one; otherwise it appends exactly the new confirmed row, and the outcome is the late error exactly when the patient has an email and the doctor is missing (the row stays), success otherwise |
| Booking.ReserveOutcomes | app/routes/public.py:152-228 | past validation: the patient list is the find-or-create result whatever follows; a doctor id beyond the 64-bit range gives the error and adds no row; otherwise "slot taken" happens exactly when a confirmed appointment holds the slot, and adds no row; past the re-check, the conflict happens exactly on a clash and the late error exactly for an email patient and a missing doctor |
| Booking.BookFrame | app/routes/public.py:130-228 | any attempt only adds: clinics, users and availability rows stay, at most one patient and at most one appointment are appended, and rows are added only on success or the late error |
| Booking.BookKeepsValid | app/routes/public.py:130-228 | unique slots, unique tokens, ordered patient ids and patient references all survive every booking attempt |
| Booking.ReserveKeepsValid | app/routes/public.py:152-188 | the stage past validation keeps the database valid |
| Booking.BookedAppends | app/routes/public.py:152-188 | a success needs a doctor id within the 64-bit range and appends one confirmed appointment with the requested doctor, date and time, the booking clinic, the stripped reason, the fresh token and a patient holding the phone number |
| Booking.FreeSlotBooked | app/routes/public.py:130-228 | a well-formed booking, for a doctor id within the 64-bit range, of a slot that no appointment holds, with a token no appointment holds, is stored: exactly the new confirmed row is appended, and the outcome is success, or the late error exactly when the patient has an email and the doctor is missing |
| Booking.SlotTakenIff | app/routes/public.py:164-174 | a well-formed booking is refused by the re-check exactly when the doctor id is within the 64-bit range and a confirmed appointment holds the slot, and the table is unchanged |
| Booking.UnbindableDoctorIdRefused | app/routes/public.py:137-170 | a well-formed booking whose doctor id lies beyond the signed 64-bit range ends in the error once the patient step has run: the new patient is kept and no appointment is stored |
| Booking.NonConfirmedSlotConflicts | app/routes/public.py:164-188 | for a doctor id within the 64-bit range, a slot held by a cancelled, finished or no-show appointment passes the re-check, then hits the uniqueness constraint and ends as a conflict with no row added |
| Booking.SecondBookingRefused | app/routes/public.py:164-174 | after a successful booking, a second well-formed booking of the same doctor, date and time is refused |
| Booking.BookedTimeNotListed | app/routes/public.py:103-121 | after a successful booking the booked time is no longer listed for that doctor and date |
| Cancellation.CancelPage | app/routes/public.py:16-32 | the page the cancellation link opens; its four outcomes are stated by Cancellation.CancelPageCases |
| Cancellation.ConfirmCancel | app/routes/public.py:35-53 | the cancellation POST as a function of the tables; its effect is stated by Cancellation.ConfirmCancelEffect and Cancellation.CancelErrorIff |
| Cancellation.CancelPageCases | app/routes/public.py:16-32 | the link shows, in order: invalid for an unknown token, "already passed" for a date before today (even if cancelled), "already cancelled", and otherwise the form for the row holding the token |
| Cancellation.TodayIsNotPassed | app/routes/public.py:24 | an uncancelled appointment dated today is still offered for cancellation |
| Cancellation.ConfirmCancelEffect | app/routes/public.py:35-41 | an unknown token (404) changes nothing; otherwise exactly the row holding the token becomes cancelled, whatever its date and status, and nothing else changes |
| Cancellation.ConfirmCancelIdempotent | app/routes/public.py:35-41 | confirming a cancellation twice leaves the database as confirming once |
| Cancellation.FindByTokenSameTokens | app/routes/public.py:38 | the token lookup depends only on the token column, so a status change does not move it |
| Cancellation.ConfirmCancelKeepsValid | app/routes/public.py:38-41 | cancelling keeps the database valid |
| Cancellation.ConfirmCancelKeepsTable | app/routes/public.py:40-41 | cancelling keeps both uniqueness constraints |
| Cancellation.ConfirmedLinkNoLongerPrompts | app/routes/public.py:16-41 | once cancelled, the link shows "already passed" or "already cancelled", never the form again |
| Cancellation.CancelErrorIff | app/routes/public.py:43-50 | on a valid database the POST fails after cancelling exactly when the patient has an email and the doctor lookup yields nothing |
| Cancellation.CancelledSlotReleased | app/routes/public.py:40-41 | after a cancellation no confirmed appointment holds that slot, so it is no longer among the taken times |
| Cancellation.CancelledSlotStillConflicts | app/routes/public.py:164-188 | after a cancellation, a well-formed booking of exactly that slot ends as a conflict, with no row added |
| Store.Database.GetDisponibilites | app/routes/public.py:87-127 | the route, run on the live tables, returns exactly the functional listing and changes nothing |
| Store.Database.ReserverRdvPublic | app/routes/public.py:130-228 | the handler, run on the live tables, gives the functional outcome and tables (so a doctor id beyond the 64-bit range ends in the error with no appointment), keeps the database valid, and keeps existing appointment objects while adding only fresh ones |
| Store.Database.Reserve | app/routes/public.py:152-174 | the find-or-create and re-check stage, including the error for a doctor id beyond the 64-bit range, run in place, matches its functional description |
| Store.Database.Commit | app/routes/public.py:176-228 | the insert of a new appointment object and the notification step, run in place, match their functional description |
| Store.Database.ConfirmerAnnulation | app/routes/public.py:35-53 | the POST cancels the object holding the token in place, matches the functional cancellation, changes no other object, and keeps the database valid |

## Left out

- Presentation: templates, flash messages and their wording, redirects, JSON
  encoding and the error text of the listing route. The model keeps only
  which outcome is reported.
- `prendre_rdv_public`, which only filters clinics and doctors for the form
  page, and `annulation_confirmee`, which only renders a page.
- Sending email and SMS, and `formater_numero_senegal`: these calls go into
  code that is not part of this model. The model assumes they return
  normally. The SMS branch swallows its own errors, so it cannot change the
  outcome.
- The cancellation token generator `secrets.token_urlsafe(32)` is randomness.
  The token is a parameter of the booking.
- `datetime.now()` is a clock. The cancellation page takes `today` as a
  parameter.
- Concurrency: two requests interleaving between the re-check and the insert
  are not modelled. Each request runs alone, and the uniqueness check at the
  insert is the one a racing request would hit.
- The transaction machinery is reduced to its effect: an insert that the
  constraint refuses adds nothing, and earlier commits stay.
- Foreign keys and `String(n)` lengths are taken as unenforced, as in
  SQLite's default configuration. An unknown doctor id within the 64-bit
  range is stored, and a time
  string longer than five characters is stored as given.
- `Booking.Form`: the doctor id field is abstracted to "an integer, or
  `int()` raised". Python's `int()` parsing itself (signs, white space,
  underscores) is not modelled.
- Flask's `<int:medecin_id>` route converter accepts only non-negative
  numerals. `Store.Database.GetDisponibilites` accepts any integer, and
  answers one beyond the 64-bit range with the error listing, as the route
  does.
- `strptime` also accepts non-ASCII decimal digits. The model accepts ASCII
  digits only.
- Appointment columns `id`, `notes` and `date_creation`, the relations other
  than patient and doctor, and `__repr__` are not modelled.
- `statut` is a free `String(20)` column. The model admits only the four
  values the code writes.
- Booking.FindOrCreatePatient, Models.PatientIds: a new patient gets the id
  `|patients| + 1`, and a valid database has the ids 1 to n in insertion
  order. SQLite gives a new row the largest id plus one, so this matches only
  when the patient table starts empty and no patient is ever deleted.
  Deleting patients is not modelled.
- Slots.SlotWalk: running time and memory are not modelled. With a negative
  length the loop walks back to year 1 before it raises, about 33 million
  steps for -30, and builds a list of that many labels first. The model
  states only that the result is the error listing.
- Slots.WalkPositive: states the listing for positive slot lengths whose
  first step stays within the datetime range. Slots.WalkOverflowIff and
  Slots.WalkNegative cover the other lengths.
- Slots.ListedIff: states the listing only when the first step stays in
  range and the slot length is positive. For a doctor id outside the 64-bit
  range, Slots.ListingFallbacks gives the error listing. Outside that, Slots.WalkOverflowIff
  and Slots.WalkNegative show the listing is an error.
