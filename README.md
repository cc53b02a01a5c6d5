# Doctor scheduling store, modelled in Dafny

The system is a small Flask API over five in-memory tables: doctors,
locations, doctor–location associations, weekly availability windows
("doctor hours") and booked appointments ("doctor schedules"). The route
handlers read and change these lists directly. The model keeps that shape:

- `records.dfy` (module `Records`): one datatype per table row, the JSON
  request bodies (an absent key is `None`), the parsed date/time, and
  `Response<T>`, which stands for the HTTP status and JSON body. `Ok` is the
  200 answer. `MissingField` is the 400 answer. `DoctorNotFound`,
  `InvalidDateTime`, `BadMinutes`, `NotInSchedule`, `Taken` and
  `NothingScheduled` are the 404 answers. `NoResponse` stands for a handler
  that returns nothing.
- `strings.dfy` (module `Strings`): Python's `<=` on `str`, which compares
  code points and puts a proper prefix first, as `StrLe`. Its order laws are
  proved, and so is the fact that on zero-padded "HH:MM" texts it agrees with
  clock order.
- `filtering.dfy` (module `Filtering`): `list(filter(p, xs))` as `Filter`,
  with lemmas that it keeps order, keeps each selected element as many times
  as it occurs, and is empty exactly when no element qualifies.
- `rules.dfy` (module `Rules`): the handlers' checks and queries as pure
  functions. These are the doctor-id range check, the association join, the
  booking chain `Book`, and the cancel outcome. The lemmas about them are
  here too.
- `store.dfy` (module `Store`): the class `Store`, whose five `seq` fields are
  the tables. The constructor installs the seed rows. There is one method per
  route handler, and each mutating method names only the table it changes in
  its `modifies` clause. The lemmas at the end state the outcomes of the seed-data scenarios.

The store invariant `Valid()` says three things. Doctor ids equal their
positions. Every association names an existing location. No two appointments
share a (doctor, date, time) slot. The seed data satisfies it, and every
handler keeps it.

Behaviour kept as the code has it:

- The locations query keeps the associations whose doctor is NOT the
  requested one (`!=` at `flaskr/__init__.py:117`). On the seed data, each
  doctor is answered with the other doctor's locations.
- The cancel handler's `return` of the not-found answer sits inside the loop
  body, so the loop never gets past the first appointment.
  - A match on the first row pops it.
  - Any other first row answers `NothingScheduled`, even when a later row
    matches.
  - An empty table makes the handler return nothing (`NoResponse`).
  - The method writes the two returns inside the loop as a `done` flag that
    ends the loop after its first pass. This gives the same answers and the
    same table.
- The location id of a new appointment is never checked against the
  locations table.
- The window check compares the raw request time with the window's "HH:MM"
  strings as strings, inclusive at both ends.

Appointment ids are the table length at append time, so they can repeat
after a cancel. Cancel only ever examines the first appointment; it does not
scan for the first match.

Date/time parsing (`datetime.strptime` with `"%Y-%m-%d %H:%M"` and
`weekday()`) is a library call. It is a parameter
`parse: string -> Option<DateTime>` of the booking operations. It is applied
to `date + " " + time`, exactly the text the handler builds. `DateTime` holds
the minute (0..59) and the weekday (0 = Monday .. 6) as subset types, so every
parser the model is given respects those ranges.

## Model

| member | source | states |
|---|---|---|
| Strings.StrLe | flaskr/__init__.py:168 | Python's `<=` on `str`; its contract says a prefix sorts no later than the longer string; its order laws are the four lemmas below and StrLeFirstDifference |
| Strings.StrLeReflexive | flaskr/__init__.py:168 | every string is `<=` itself (a consequence of the prefix rule in StrLe's contract), so a booking exactly at a window's start or end passes the window check |
| Strings.StrLeAntisymmetric | flaskr/__init__.py:168 | two strings each `<=` the other are equal |
| Strings.StrLeTransitive | flaskr/__init__.py:168 | the string order used by the window check is transitive |
| Strings.StrLeTotal | flaskr/__init__.py:168 | any two strings are comparable |
| Strings.StrLeFirstDifference | flaskr/__init__.py:168 | the first differing code point decides the order whatever follows, in one direction only, where neither string is a prefix of the other |
| Strings.ClockOrder | flaskr/__init__.py:26-28 | on zero-padded "HH:MM" texts the string order coincides with minutes since midnight |
| Filtering.Filter | flaskr/__init__.py:194 | the filter keeps only elements of the input that satisfy the predicate, and is no longer than the input |
| Filtering.FilterAppend | flaskr/__init__.py:194 | filtering a concatenation concatenates the filtered parts, so the original order is kept |
| Filtering.FilterCount | flaskr/__init__.py:194 | each element satisfying the predicate occurs as often as in the input; others do not occur |
| Filtering.FilterMember | flaskr/__init__.py:117 | an element is in the filter iff it is in the input and satisfies the predicate |
| Filtering.FilterEmpty | flaskr/__init__.py:168-173 | `len(list(filter(...)))` is 0 iff no element satisfies the predicate |
| Rules.IsDoctorId | flaskr/__init__.py:73 | the range check `0 <= id < len(doctors)` repeated at lines 113, 149 and 190; the handlers' contracts (ListDoctor, ListDoctorLocations, ListAppointments) and BookDecides state what it decides |
| Records.Response.Status | flaskr/__init__.py:180 | replaces a success value by the literal "success" answer (also at line 225) and keeps every error answer; its contract says it succeeds exactly when the original answer does |
| Rules.HasAllFields | flaskr/__init__.py:140-146 | the four key reads whose KeyError answers MissingField; BookDecides states that MissingField happens exactly when it fails |
| Rules.DateTimeText | flaskr/__init__.py:154 | the text `date + ' ' + time` handed to the parser; DateTimeValid and BookDecides apply the parser to it |
| Rules.OnQuarterHour | flaskr/__init__.py:160 | the minute test `mins in {00, 15, 30, 45}`; BookDecides states that BadMinutes happens exactly when it fails after a successful parse |
| Rules.AppendDoctorKeepsIds | flaskr/__init__.py:98-101 | appending a doctor whose id is the table length keeps ids equal to positions, keeps earlier rows, and makes exactly one more id valid |
| Rules.LocationsOf | flaskr/__init__.py:117 | the comprehension maps each association, position by position, to the location its `location_id` indexes |
| Rules.OtherDoctor | flaskr/__init__.py:117 | the join filter as written, `doctor_id != requested`; JoinSingle and JoinSkipsOwnLinks characterise its effect |
| Rules.JoinLocations | flaskr/__init__.py:117 | the locations answer; its contract bounds its length and says every location in it is named by another doctor's association; JoinMember gives the converse, JoinAppend and JoinSingle the order |
| Rules.LocationsOfAppend | flaskr/__init__.py:117 | the comprehension distributes over concatenation |
| Rules.JoinAppend | flaskr/__init__.py:117 | the locations answer of concatenated association lists is the concatenation of the answers, in association order |
| Rules.JoinSingle | flaskr/__init__.py:117 | one association contributes its location iff its doctor differs from the requested one |
| Rules.JoinSkipsOwnLinks | flaskr/__init__.py:117 | removing any association of the requested doctor leaves the answer unchanged |
| Rules.JoinMember | flaskr/__init__.py:117 | a location is in the answer iff some association of another doctor names it |
| Rules.Covers | flaskr/__init__.py:168 | the window filter `start <= time <= end and DOW == dow and doctor_id == id`; BookDecides equates its non-empty filter with WindowExists |
| Rules.Occupies | flaskr/__init__.py:172 | the conflict filter on (date, time, doctor_id); BookDecides equates its non-empty filter with SlotBooked |
| Rules.ForDoctor | flaskr/__init__.py:194 | the appointments-for-doctor filter; ListAppointments states its multiplicities, FilterAppend its order |
| Rules.Book | flaskr/__init__.py:140-180 | the booking chain; its contract says it never answers NothingScheduled or NoResponse and that success means all fields, an existing doctor, a parsed quarter-hour time and the record with id = number of appointments; BookDecides characterises every answer |
| Rules.BookDecides | flaskr/__init__.py:140-180 | each booking answer happens exactly when all earlier checks pass and its own check fails, in the order: missing field, doctor range, parse, minute in {0,15,30,45}, availability window, slot taken; success iff every check passes, with record id = number of appointments and the location id as given |
| Rules.BookKeepsSlotsDistinct | flaskr/__init__.py:171-178 | appending the accepted appointment keeps all (doctor, date, time) slots distinct |
| Rules.BookThenTaken | flaskr/__init__.py:171-178 | right after a successful booking, the same doctor, date and time with any location is answered Taken |
| Rules.BookIgnoresLocation | flaskr/__init__.py:163 | the location id changes neither the answer nor the new record except its own field |
| Rules.CancelFieldsPresent | flaskr/__init__.py:214-219 | the three key reads whose KeyError answers MissingField; CancelOutcome's contract states that MissingField happens exactly when it fails |
| Rules.CancelMatches | flaskr/__init__.py:223 | the three `==` conjuncts on doctor_id, date and time; CancelOutcome's contract states that Ok happens exactly when the first row satisfies it |
| Rules.CancelOutcome | flaskr/__init__.py:214-228 | the cancel answer; its contract says it is one of Ok, MissingField, NothingScheduled or NoResponse, each exactly when: a field is absent (MissingField), the table is empty (NoResponse), the first row matches (Ok), the first row does not match (NothingScheduled); CancelExaminesOnlyFirst and CancelTwiceFails are about it |
| Rules.AfterCancel | flaskr/__init__.py:221-226 | the table after a cancel is unchanged or loses exactly its first row, and only a matching first row is lost; CancelRemovesAtMostOne and CancelKeepsSlotsDistinct are about it |
| Rules.CancelRemovesAtMostOne | flaskr/__init__.py:221-228 | a successful cancel removes exactly the first row, which holds the requested slot; any other answer leaves the table as it was |
| Rules.CancelExaminesOnlyFirst | flaskr/__init__.py:221-228 | rows after the first never change the cancel answer |
| Rules.CancelKeepsSlotsDistinct | flaskr/__init__.py:221-226 | cancelling keeps all slots distinct |
| Rules.CancelTwiceFails | flaskr/__init__.py:221-228 | after a successful cancel, the same cancel answers NothingScheduled or NoResponse |
| Store.Store.constructor | flaskr/__init__.py:6-35 | the tables start as the seed rows and satisfy the store invariant |
| Store.Store.ListDoctors | flaskr/__init__.py:56-63 | answers the whole doctors table |
| Store.Store.ListDoctor | flaskr/__init__.py:65-76 | DoctorNotFound iff the id is outside [0, number of doctors); otherwise the doctor at that position, whose id is the requested one |
| Store.Store.AddDoctor | flaskr/__init__.py:80-103 | a missing name answers MissingField and leaves the table; otherwise answers id = old length and appends exactly that doctor; only the doctors table can change |
| Store.Store.ListDoctorLocations | flaskr/__init__.py:105-119 | DoctorNotFound iff the id is out of range; otherwise the join over other doctors' associations, whose members are exactly the locations those associations name; changes nothing |
| Store.Store.AddAppointment | flaskr/__init__.py:125-180 | the answer is the booking chain's (success iff every check passes); on success exactly one appointment with id = old length is appended; on every rejection the table is unchanged; only the appointments table can change; no duplicate slot appears |
| Store.Store.ListAppointments | flaskr/__init__.py:182-196 | DoctorNotFound iff the id is out of range; otherwise exactly that doctor's appointments, each as often as in the table, in table order; changes nothing |
| Store.Store.CancelAppointment | flaskr/__init__.py:200-228 | MissingField without any change when a field is absent; NoResponse on an empty table; pops the first row and succeeds when it matches; otherwise NothingScheduled with the table unchanged; slots stay distinct |
| Store.SeedIsValid | flaskr/__init__.py:6-35 | the seed rows satisfy the store invariant |
| Store.SeedBookingTaken | flaskr/__init__.py:32-34 | booking doctor 0 on Monday 2019-01-21 at 08:00 is Taken, as the seed holds that slot |
| Store.SeedBookingBadMinutes | flaskr/__init__.py:158-161 | 08:05 is answered BadMinutes |
| Store.SeedBookingSunday | flaskr/__init__.py:167-169 | a Sunday booking for doctor 0 is answered NotInSchedule |
| Store.SeedBookingAccepted | flaskr/__init__.py:175-180 | a free Monday 08:15 booking for doctor 0 is accepted with id 2 |
| Store.SeedJoin | flaskr/__init__.py:16-20 | on the seed rows doctor 0 gets both of doctor 1's locations and doctor 1 gets doctor 0's one |
| Store.SeedCancelMissesSecond | flaskr/__init__.py:221-228 | cancelling the seeded second appointment answers NothingScheduled although it exists |

## Left out

- Flask application setup and configuration (`flaskr/__init__.py:41-54`), routing, `jsonify` and `request.get_json()`: requests are datatypes with optional fields and answers are `Response` values. The model's answers are the handler bodies' answers, not always what goes over the wire:
  - The `<int:doctor_id>` route converter (`flaskr/__init__.py:65`, `flaskr/__init__.py:105`, `flaskr/__init__.py:182`) does not match a negative number. So a request such as GET `/doctors/-1` never reaches the handler's `doctor_id < 0` test, and Flask answers with its own 404 page. The model answers DoctorNotFound, which is what the handler bodies do for such an id.
  - A handler that returns nothing (the cancel on an empty table, `NoResponse`) becomes a server error (500) in Flask.
- The message texts of the error bodies and the `message`/`error_detail` key names: each is one `Response` constructor. The three handlers' different missing-field texts all become `MissingField`.
- `datetime.strptime` and `weekday()`: a parser parameter whose minute and weekday are in range by type. Python's lenient acceptance of single-digit fields is then a property of the parser the caller supplies.
- Request values other than the typed fields the model's requests hold (an `int` doctor or location id, `str` names, date and time) are outside the model. The source accepts several of them without raising:
  - A JSON null or non-string `first_name`/`last_name` is appended as given, and the answer is 200 (`flaskr/__init__.py:93-103`).
  - A JSON null `location_id` is appended as given (`flaskr/__init__.py:142`, `flaskr/__init__.py:178`).
  - A float `doctor_id` in [0, number of doctors) passes the range check (`flaskr/__init__.py:149`); one outside it, such as `7.5`, gets the not-found answer. `0.0` books for doctor 0, because `0.0 == 0` in the window and conflict filters (`flaskr/__init__.py:168`, `flaskr/__init__.py:172`).
  - The cancel handler only compares values with `==` (`flaskr/__init__.py:223`). A value equal under `==` to the first row's field (such as `0.0` or `True` for an id) matches that row, which is then popped (`flaskr/__init__.py:224-225`). Any other value gets NothingScheduled, or no answer on an empty table.
- Inputs that raise instead of answering are outside the model: a string or JSON-null `doctor_id` at the range check (`flaskr/__init__.py:149`), a JSON-null or non-string `date`/`time` at the parse (`flaskr/__init__.py:154`), and a missing JSON body (`flaskr/__init__.py:93`, `flaskr/__init__.py:141`, `flaskr/__init__.py:215`).
- Store.Store.ListDoctorLocations: requires every association to name an existing location. Python indexes only the associations that pass the `!=` filter, raising on a large index and wrapping a negative one, so this requirement is stronger than Python needs; the difference shows only in states the fixed association and location tables never reach, and the store invariant guarantees the requirement.
- Uniqueness of appointment ids: ids are the table length at append time and can repeat after a cancel, so no uniqueness is claimed.
- Concurrency: the handlers run without locks and the model is sequential.
