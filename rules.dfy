/** The checks and queries the route handlers perform on the tables, as pure
    functions of the tables' contents, with the properties they have. */
module Rules {
  import opened Wrappers
  import opened Strings
  import opened Filtering
  import opened Records

  // ---------------------------------------------------------------- doctors

  /** The range check shared by every handler that takes a doctor id. */
  predicate IsDoctorId(doctors: seq<Doctor>, id: int) {
    0 <= id < |doctors|
  }

  /** Doctor ids are the doctors' positions in the table. */
  ghost predicate IdsAreIndices(doctors: seq<Doctor>) {
    forall i :: 0 <= i < |doctors| ==> doctors[i].id == i
  }

  /** Appending a doctor whose id is the table's length keeps ids equal to
      positions and leaves every earlier row where it was. */
  lemma AppendDoctorKeepsIds(doctors: seq<Doctor>, firstName: string, lastName: string)
    requires IdsAreIndices(doctors)
    ensures var grown := doctors + [Doctor(|doctors|, firstName, lastName)];
      IdsAreIndices(grown) && grown[..|doctors|] == doctors &&
      forall id :: IsDoctorId(grown, id) <==> IsDoctorId(doctors, id) || id == |doctors|
  {
    var grown := doctors + [Doctor(|doctors|, firstName, lastName)];
    assert grown[..|doctors|] == doctors;
  }

  // ------------------------------------------------------- doctor locations

  /** Every association names a location that exists (the Python list index
      would fail otherwise). */
  predicate LocationIdsInRange(links: seq<DoctorLocation>, locations: seq<Location>) {
    forall a :: a in links ==> 0 <= a.locationId < |locations|
  }

  /** `[locations[y['location_id']] for y in links]`. */
  function LocationsOf(links: seq<DoctorLocation>, locations: seq<Location>): (r: seq<Location>)
    requires LocationIdsInRange(links, locations)
    ensures |r| == |links|
    ensures forall k :: 0 <= k < |links| ==> r[k] == locations[links[k].locationId]
  {
    if links == [] then []
    else [locations[links[0].locationId]] + LocationsOf(links[1..], locations)
  }

  /** The join filter exactly as written: it keeps the associations of every
      doctor OTHER than the requested one. */
  function OtherDoctor(doctorId: int): DoctorLocation -> bool {
    (a: DoctorLocation) => a.doctorId != doctorId
  }

  /** The answer of the locations-for-doctor query. */
  function JoinLocations(links: seq<DoctorLocation>, locations: seq<Location>, doctorId: int): (r: seq<Location>)
    requires LocationIdsInRange(links, locations)
    ensures |r| <= |links|
    ensures forall x :: x in r ==> exists a :: a in links && a.doctorId != doctorId && x == locations[a.locationId]
  {
    LocationsOf(Filter(links, OtherDoctor(doctorId)), locations)
  }

  lemma {:induction false} LocationsOfAppend(s: seq<DoctorLocation>, t: seq<DoctorLocation>, locations: seq<Location>)
    requires LocationIdsInRange(s, locations) && LocationIdsInRange(t, locations)
    ensures LocationIdsInRange(s + t, locations)
    ensures LocationsOf(s + t, locations) == LocationsOf(s, locations) + LocationsOf(t, locations)
    decreases |s|
  {
    if s == [] {
      assert s + t == t;
    } else {
      assert (s + t)[1..] == s[1..] + t;
      LocationsOfAppend(s[1..], t, locations);
    }
  }

  /** The join of a concatenation is the concatenation of the joins: the
      answer follows the order of the association table. */
  lemma JoinAppend(s: seq<DoctorLocation>, t: seq<DoctorLocation>, locations: seq<Location>, doctorId: int)
    requires LocationIdsInRange(s, locations) && LocationIdsInRange(t, locations)
    ensures LocationIdsInRange(s + t, locations)
    ensures JoinLocations(s + t, locations, doctorId)
         == JoinLocations(s, locations, doctorId) + JoinLocations(t, locations, doctorId)
  {
    var p := OtherDoctor(doctorId);
    FilterAppend(s, t, p);
    LocationsOfAppend(Filter(s, p), Filter(t, p), locations);
  }

  /** A single association contributes its location exactly when it belongs
      to another doctor. */
  lemma JoinSingle(a: DoctorLocation, locations: seq<Location>, doctorId: int)
    requires 0 <= a.locationId < |locations|
    ensures LocationIdsInRange([a], locations)
    ensures JoinLocations([a], locations, doctorId)
         == if a.doctorId != doctorId then [locations[a.locationId]] else []
  {
    assert [a][1..] == [];
  }

  /** The requested doctor's own associations never contribute to the answer. */
  lemma JoinSkipsOwnLinks(s: seq<DoctorLocation>, a: DoctorLocation, t: seq<DoctorLocation>,
                          locations: seq<Location>)
    requires LocationIdsInRange(s, locations) && LocationIdsInRange(t, locations)
    requires 0 <= a.locationId < |locations|
    ensures LocationIdsInRange(s + [a] + t, locations) && LocationIdsInRange(s + t, locations)
    ensures JoinLocations(s + [a] + t, locations, a.doctorId) == JoinLocations(s + t, locations, a.doctorId)
  {
    var d := a.doctorId;
    JoinSingle(a, locations, d);
    JoinAppend(s, [a], locations, d);
    var sa := s + [a];
    assert JoinLocations(sa, locations, d) == JoinLocations(s, locations, d);
    JoinAppend(sa, t, locations, d);
    JoinAppend(s, t, locations, d);
  }

  /** A location is in the answer exactly when some association of another
      doctor names it. */
  lemma JoinMember(links: seq<DoctorLocation>, locations: seq<Location>, doctorId: int, x: Location)
    requires LocationIdsInRange(links, locations)
    ensures x in JoinLocations(links, locations, doctorId) <==>
            exists a :: a in links && a.doctorId != doctorId && locations[a.locationId] == x
  {
    var kept := Filter(links, OtherDoctor(doctorId));
    var r := JoinLocations(links, locations, doctorId);
    if x in r {
      var k :| 0 <= k < |r| && r[k] == x;
      assert kept[k] in kept;
    }
    if exists a :: a in links && a.doctorId != doctorId && locations[a.locationId] == x {
      var a :| a in links && a.doctorId != doctorId && locations[a.locationId] == x;
      FilterMember(links, OtherDoctor(doctorId), a);
      var k :| 0 <= k < |kept| && kept[k] == a;
      assert r[k] == x;
    }
  }

  // ----------------------------------------------------------- appointments

  /** The filter of the appointments-for-doctor query. */
  function ForDoctor(doctorId: int): Appointment -> bool {
    (a: Appointment) => a.doctorId == doctorId
  }

  /** The two appointments occupy the same (doctor, date, time) slot. */
  predicate SameSlot(a: Appointment, b: Appointment) {
    a.doctorId == b.doctorId && a.date == b.date && a.time == b.time
  }

  /** No two booked appointments share a slot. */
  ghost predicate NoDuplicateSlots(s: seq<Appointment>) {
    forall i, j :: 0 <= i < j < |s| ==> !SameSlot(s[i], s[j])
  }

  // ---------------------------------------------------------------- booking

  predicate HasAllFields(req: AppointmentRequest) {
    req.doctorId.Some? && req.locationId.Some? && req.date.Some? && req.time.Some?
  }

  /** The text handed to the date/time parser: date, one space, time. */
  function DateTimeText(req: AppointmentRequest): string
    requires HasAllFields(req)
  {
    req.date.value + " " + req.time.value
  }

  predicate OnQuarterHour(minute: int) {
    minute in {0, 15, 30, 45}
  }

  /** The window filter as written: start <= time <= end as strings, on the
      requested weekday, for the requested doctor. */
  function Covers(doctorId: int, dow: int, time: string): Hours -> bool {
    (h: Hours) => StrLe(h.start, time) && StrLe(time, h.end) && h.dow == dow && h.doctorId == doctorId
  }

  /** The conflict filter as written. */
  function Occupies(doctorId: int, date: string, time: string): Appointment -> bool {
    (a: Appointment) => date == a.date && time == a.time && a.doctorId == doctorId
  }

  /** The create-appointment handler's checks in their order. The first that
      fails decides the answer; when all pass the answer is the record to
      append, whose id is the current number of appointments. The location
      id is taken as given. */
  function Book(doctors: seq<Doctor>, hours: seq<Hours>, schedules: seq<Appointment>,
                parse: string -> Option<DateTime>, req: AppointmentRequest): (r: Response<Appointment>)
    ensures !r.NothingScheduled? && !r.NoResponse?
    ensures r.Ok? ==> HasAllFields(req) && IsDoctorId(doctors, r.value.doctorId)
    ensures r.Ok? ==> r.value == Appointment(|schedules|, req.doctorId.value, req.locationId.value,
                                             req.date.value, req.time.value)
    ensures r.Ok? ==> parse(DateTimeText(req)).Some? && OnQuarterHour(parse(DateTimeText(req)).value.minute)
  {
    if !HasAllFields(req) then MissingField
    else
      var doctorId, locationId, date, time := req.doctorId.value, req.locationId.value, req.date.value, req.time.value;
      if !IsDoctorId(doctors, doctorId) then DoctorNotFound
      else
        match parse(DateTimeText(req))
        case None => InvalidDateTime
        case Some(dt) =>
          if !OnQuarterHour(dt.minute) then BadMinutes
          else if |Filter(hours, Covers(doctorId, dt.weekday, time))| == 0 then NotInSchedule
          else if |Filter(schedules, Occupies(doctorId, date, time))| > 0 then Taken
          else Ok(Appointment(|schedules|, doctorId, locationId, date, time))
  }

  /** Some window of the doctor on that weekday contains the time, both ends
      included. */
  ghost predicate WindowExists(hours: seq<Hours>, doctorId: int, dow: int, time: string) {
    exists i :: 0 <= i < |hours| && hours[i].doctorId == doctorId && hours[i].dow == dow &&
                StrLe(hours[i].start, time) && StrLe(time, hours[i].end)
  }

  /** Some booked appointment already holds the slot. */
  ghost predicate SlotBooked(schedules: seq<Appointment>, doctorId: int, date: string, time: string) {
    exists j :: 0 <= j < |schedules| && schedules[j].doctorId == doctorId &&
                schedules[j].date == date && schedules[j].time == time
  }

  // The stages of the check chain; each includes the ones before it.

  ghost predicate DoctorKnown(doctors: seq<Doctor>, req: AppointmentRequest) {
    HasAllFields(req) && IsDoctorId(doctors, req.doctorId.value)
  }

  ghost predicate DateTimeValid(doctors: seq<Doctor>, parse: string -> Option<DateTime>, req: AppointmentRequest) {
    DoctorKnown(doctors, req) && parse(DateTimeText(req)).Some?
  }

  ghost predicate MinuteAllowed(doctors: seq<Doctor>, parse: string -> Option<DateTime>, req: AppointmentRequest) {
    DateTimeValid(doctors, parse, req) && OnQuarterHour(parse(DateTimeText(req)).value.minute)
  }

  ghost predicate WithinHours(doctors: seq<Doctor>, hours: seq<Hours>, parse: string -> Option<DateTime>,
                              req: AppointmentRequest) {
    MinuteAllowed(doctors, parse, req) &&
    WindowExists(hours, req.doctorId.value, parse(DateTimeText(req)).value.weekday, req.time.value)
  }

  ghost predicate SlotFree(doctors: seq<Doctor>, hours: seq<Hours>, schedules: seq<Appointment>,
                           parse: string -> Option<DateTime>, req: AppointmentRequest) {
    WithinHours(doctors, hours, parse, req) &&
    !SlotBooked(schedules, req.doctorId.value, req.date.value, req.time.value)
  }

  /** Each answer of the booking chain happens exactly when the checks before
      it pass and its own check fails; success happens exactly when every
      check passes, and then the new record has id = number of appointments. */
  lemma BookDecides(doctors: seq<Doctor>, hours: seq<Hours>, schedules: seq<Appointment>,
                    parse: string -> Option<DateTime>, req: AppointmentRequest)
    ensures Book(doctors, hours, schedules, parse, req) == MissingField <==> !HasAllFields(req)
    ensures Book(doctors, hours, schedules, parse, req) == DoctorNotFound <==>
            HasAllFields(req) && !DoctorKnown(doctors, req)
    ensures Book(doctors, hours, schedules, parse, req) == InvalidDateTime <==>
            DoctorKnown(doctors, req) && !DateTimeValid(doctors, parse, req)
    ensures Book(doctors, hours, schedules, parse, req) == BadMinutes <==>
            DateTimeValid(doctors, parse, req) && !MinuteAllowed(doctors, parse, req)
    ensures Book(doctors, hours, schedules, parse, req) == NotInSchedule <==>
            MinuteAllowed(doctors, parse, req) && !WithinHours(doctors, hours, parse, req)
    ensures Book(doctors, hours, schedules, parse, req) == Taken <==>
            WithinHours(doctors, hours, parse, req) && !SlotFree(doctors, hours, schedules, parse, req)
    ensures Book(doctors, hours, schedules, parse, req).Ok? <==> SlotFree(doctors, hours, schedules, parse, req)
    ensures Book(doctors, hours, schedules, parse, req).Ok? ==>
            Book(doctors, hours, schedules, parse, req).value
              == Appointment(|schedules|, req.doctorId.value, req.locationId.value, req.date.value, req.time.value)
  {
    if DateTimeValid(doctors, parse, req) {
      var doctorId, date, time := req.doctorId.value, req.date.value, req.time.value;
      var dt := parse(DateTimeText(req)).value;
      FilterEmpty(hours, Covers(doctorId, dt.weekday, time));
      FilterEmpty(schedules, Occupies(doctorId, date, time));
    }
  }

  /** A successful booking keeps the appointment table free of duplicate slots. */
  lemma BookKeepsSlotsDistinct(doctors: seq<Doctor>, hours: seq<Hours>, schedules: seq<Appointment>,
                               parse: string -> Option<DateTime>, req: AppointmentRequest)
    requires NoDuplicateSlots(schedules)
    requires Book(doctors, hours, schedules, parse, req).Ok?
    ensures NoDuplicateSlots(schedules + [Book(doctors, hours, schedules, parse, req).value])
  {
    BookDecides(doctors, hours, schedules, parse, req);
    var grown := schedules + [Book(doctors, hours, schedules, parse, req).value];
    forall i, j | 0 <= i < j < |grown|
      ensures !SameSlot(grown[i], grown[j])
    {
      if j == |schedules| {
        assert grown[i] == schedules[i];
      } else {
        assert grown[i] == schedules[i] && grown[j] == schedules[j];
      }
    }
  }

  /** Straight after a successful booking the same (doctor, date, time) is
      refused as taken, whatever location is asked for. */
  lemma BookThenTaken(doctors: seq<Doctor>, hours: seq<Hours>, schedules: seq<Appointment>,
                      parse: string -> Option<DateTime>, req: AppointmentRequest, locationId: int)
    requires Book(doctors, hours, schedules, parse, req).Ok?
    ensures Book(doctors, hours, schedules + [Book(doctors, hours, schedules, parse, req).value], parse,
                 req.(locationId := Some(locationId))) == Taken
  {
    var booked := Book(doctors, hours, schedules, parse, req).value;
    var again := req.(locationId := Some(locationId));
    var grown := schedules + [booked];
    BookDecides(doctors, hours, schedules, parse, req);
    BookDecides(doctors, hours, grown, parse, again);
    assert DateTimeText(again) == DateTimeText(req);
    assert grown[|schedules|] == booked;
  }

  /** The location id is never checked: it changes neither the answer nor
      anything in the new record but its own field. */
  lemma BookIgnoresLocation(doctors: seq<Doctor>, hours: seq<Hours>, schedules: seq<Appointment>,
                            parse: string -> Option<DateTime>, req: AppointmentRequest, locationId: int)
    requires req.locationId.Some?
    ensures Book(doctors, hours, schedules, parse, req.(locationId := Some(locationId))).Status()
         == Book(doctors, hours, schedules, parse, req).Status()
    ensures Book(doctors, hours, schedules, parse, req).Ok? ==>
            Book(doctors, hours, schedules, parse, req.(locationId := Some(locationId))).value
              == Book(doctors, hours, schedules, parse, req).value.(locationId := locationId)
  {
    assert HasAllFields(req) ==> DateTimeText(req.(locationId := Some(locationId))) == DateTimeText(req);
  }

  // ----------------------------------------------------------- cancellation

  predicate CancelFieldsPresent(req: CancelRequest) {
    req.doctorId.Some? && req.date.Some? && req.time.Some?
  }

  predicate CancelMatches(a: Appointment, req: CancelRequest)
    requires CancelFieldsPresent(req)
  {
    a.doctorId == req.doctorId.value && a.date == req.date.value && a.time == req.time.value
  }

  /** The cancel handler's answer as written: its loop returns during the
      first iteration, so only the first appointment is ever examined, and
      an empty table makes the handler return nothing. */
  function CancelOutcome(schedules: seq<Appointment>, req: CancelRequest): (r: Response<()>)
    ensures r.Ok? || r.MissingField? || r.NothingScheduled? || r.NoResponse?
    ensures r.MissingField? <==> !CancelFieldsPresent(req)
    ensures r.NoResponse? <==> CancelFieldsPresent(req) && schedules == []
    ensures r.Ok? <==> CancelFieldsPresent(req) && |schedules| > 0 && CancelMatches(schedules[0], req)
    ensures r.NothingScheduled? <==> CancelFieldsPresent(req) && |schedules| > 0 && !CancelMatches(schedules[0], req)
  {
    if !CancelFieldsPresent(req) then MissingField
    else if |schedules| == 0 then NoResponse
    else if CancelMatches(schedules[0], req) then Ok(())
    else NothingScheduled
  }

  /** The appointment table after a cancel: the first row is popped exactly
      when the cancel succeeds. */
  function AfterCancel(schedules: seq<Appointment>, req: CancelRequest): (r: seq<Appointment>)
    ensures r == schedules || (|schedules| > 0 && r == schedules[1..])
    ensures r != schedules ==> CancelFieldsPresent(req) && CancelMatches(schedules[0], req)
  {
    if CancelOutcome(schedules, req).Ok? then schedules[1..] else schedules
  }

  /** A cancel removes at most one appointment, and only one that holds the
      requested slot. */
  lemma CancelRemovesAtMostOne(schedules: seq<Appointment>, req: CancelRequest)
    ensures CancelOutcome(schedules, req).Ok? ==>
            CancelFieldsPresent(req) && |schedules| > 0 && CancelMatches(schedules[0], req) &&
            multiset(AfterCancel(schedules, req)) + multiset{schedules[0]} == multiset(schedules)
    ensures !CancelOutcome(schedules, req).Ok? ==> AfterCancel(schedules, req) == schedules
  {
    if CancelOutcome(schedules, req).Ok? {
      assert schedules == [schedules[0]] + schedules[1..];
    }
  }

  /** Only the first appointment decides: appointments after it, matching or
      not, never change the answer. */
  lemma CancelExaminesOnlyFirst(a: Appointment, rest: seq<Appointment>, req: CancelRequest)
    ensures CancelOutcome([a] + rest, req) == CancelOutcome([a], req)
  {
  }

  /** Cancelling keeps the appointment table free of duplicate slots. */
  lemma CancelKeepsSlotsDistinct(schedules: seq<Appointment>, req: CancelRequest)
    requires NoDuplicateSlots(schedules)
    ensures NoDuplicateSlots(AfterCancel(schedules, req))
  {
    if CancelOutcome(schedules, req).Ok? {
      var rest := schedules[1..];
      forall i, j | 0 <= i < j < |rest|
        ensures !SameSlot(rest[i], rest[j])
      {
        assert rest[i] == schedules[i + 1] && rest[j] == schedules[j + 1];
      }
    }
  }

  /** After a successful cancel, repeating it does not succeed again. */
  lemma CancelTwiceFails(schedules: seq<Appointment>, req: CancelRequest)
    requires NoDuplicateSlots(schedules)
    requires CancelOutcome(schedules, req).Ok?
    ensures CancelOutcome(AfterCancel(schedules, req), req) in {NothingScheduled, NoResponse}
  {
    if |schedules| > 1 {
      assert !SameSlot(schedules[0], schedules[1]);
      assert AfterCancel(schedules, req)[0] == schedules[1];
    }
  }
}
