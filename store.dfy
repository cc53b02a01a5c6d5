/** The in-memory store: the five tables, seeded at start-up, read and
    changed in place by the route handlers. */
module Store {
  import opened Wrappers
  import opened Strings
  import opened Filtering
  import opened Records
  import opened Rules

  const SeedDoctors: seq<Doctor> := [Doctor(0, "John", "Doe"), Doctor(1, "Jane", "Smith")]

  const SeedLocations: seq<Location> := [Location(0, "123 Main St"), Location(1, "456 Central St")]

  const SeedDoctorLocations: seq<DoctorLocation> :=
    [DoctorLocation(0, 0, 0), DoctorLocation(1, 1, 0), DoctorLocation(2, 1, 1)]

  const SeedHours: seq<Hours> :=
    [Hours(0, 0, 0, "08:00", "17:00"), Hours(1, 0, 1, "08:00", "17:00"), Hours(2, 1, 0, "09:00", "15:00")]

  const SeedSchedules: seq<Appointment> :=
    [Appointment(0, 0, 0, "2019-01-21", "08:00"), Appointment(1, 0, 0, "2019-01-21", "08:30")]

  class Store {
    var doctors: seq<Doctor>
    var locations: seq<Location>
    var doctorLocations: seq<DoctorLocation>
    var doctorHours: seq<Hours>
    var doctorSchedules: seq<Appointment>

    /** What the seed data satisfies and every handler keeps. */
    ghost predicate Valid()
      reads this
    {
      IdsAreIndices(doctors) &&
      LocationIdsInRange(doctorLocations, locations) &&
      NoDuplicateSlots(doctorSchedules)
    }

    constructor ()
      ensures Valid()
      ensures doctors == SeedDoctors && locations == SeedLocations
      ensures doctorLocations == SeedDoctorLocations && doctorHours == SeedHours
      ensures doctorSchedules == SeedSchedules
    {
      doctors := SeedDoctors;
      locations := SeedLocations;
      doctorLocations := SeedDoctorLocations;
      doctorHours := SeedHours;
      doctorSchedules := SeedSchedules;
    }

    /** GET /doctors: every doctor. */
    method ListDoctors() returns (r: seq<Doctor>)
      ensures r == doctors
    {
      r := doctors;
    }

    /** GET /doctors/<id>: the doctor at that position, or DoctorNotFound
        outside [0, number of doctors). */
    method ListDoctor(doctorId: int) returns (r: Response<Doctor>)
      ensures r.Ok? <==> IsDoctorId(doctors, doctorId)
      ensures !r.Ok? ==> r == DoctorNotFound
      ensures r.Ok? ==> r.value == doctors[doctorId]
      ensures r.Ok? && IdsAreIndices(doctors) ==> r.value.id == doctorId
    {
      if doctorId < 0 || doctorId >= |doctors| {
        return DoctorNotFound;
      }
      return Ok(doctors[doctorId]);
    }

    /** POST /doctors: both names are required; the new doctor's id is the
        number of doctors before the call. */
    method AddDoctor(req: DoctorRequest) returns (r: Response<int>)
      requires Valid()
      modifies this`doctors
      ensures Valid()
      ensures req.firstName.None? || req.lastName.None? ==>
              r == MissingField && doctors == old(doctors)
      ensures req.firstName.Some? && req.lastName.Some? ==>
              r == Ok(|old(doctors)|) &&
              doctors == old(doctors) + [Doctor(|old(doctors)|, req.firstName.value, req.lastName.value)]
    {
      if req.firstName.None? || req.lastName.None? {
        return MissingField;
      }
      var doctorId := |doctors|;
      AppendDoctorKeepsIds(doctors, req.firstName.value, req.lastName.value);
      doctors := doctors + [Doctor(doctorId, req.firstName.value, req.lastName.value)];
      return Ok(doctorId);
    }

    /** GET /doctors/<id>/locations: the locations of the associations whose
        doctor is NOT the requested one, in association order. */
    method ListDoctorLocations(doctorId: int) returns (r: Response<seq<Location>>)
      requires LocationIdsInRange(doctorLocations, locations)
      ensures !IsDoctorId(doctors, doctorId) ==> r == DoctorNotFound
      ensures IsDoctorId(doctors, doctorId) ==> r == Ok(JoinLocations(doctorLocations, locations, doctorId))
      ensures r.Ok? ==> forall x :: x in r.value <==>
                exists a :: a in doctorLocations && a.doctorId != doctorId && locations[a.locationId] == x
    {
      if doctorId < 0 || doctorId >= |doctors| {
        return DoctorNotFound;
      }
      var result := JoinLocations(doctorLocations, locations, doctorId);
      forall x: Location
        ensures x in result <==>
                exists a :: a in doctorLocations && a.doctorId != doctorId && locations[a.locationId] == x
      {
        JoinMember(doctorLocations, locations, doctorId, x);
      }
      return Ok(result);
    }

    /** POST /appointment: runs the booking checks and appends the new
        appointment when all of them pass. Nothing else changes. */
    method AddAppointment(req: AppointmentRequest, parse: string -> Option<DateTime>)
      returns (r: Response<()>)
      requires Valid()
      modifies this`doctorSchedules
      ensures Valid()
      ensures r == Book(doctors, doctorHours, old(doctorSchedules), parse, req).Status()
      ensures r.Ok? <==> SlotFree(doctors, doctorHours, old(doctorSchedules), parse, req)
      ensures r.Ok? ==>
              doctorSchedules == old(doctorSchedules) +
                [Appointment(|old(doctorSchedules)|, req.doctorId.value, req.locationId.value,
                             req.date.value, req.time.value)]
      ensures !r.Ok? ==> doctorSchedules == old(doctorSchedules)
    {
      var outcome := Book(doctors, doctorHours, doctorSchedules, parse, req);
      BookDecides(doctors, doctorHours, doctorSchedules, parse, req);
      if outcome.Ok? {
        BookKeepsSlotsDistinct(doctors, doctorHours, doctorSchedules, parse, req);
        doctorSchedules := doctorSchedules + [outcome.value];
      }
      r := outcome.Status();
    }

    /** GET /appointments/<id>: the appointments of that doctor, in table order. */
    method ListAppointments(doctorId: int) returns (r: Response<seq<Appointment>>)
      ensures !IsDoctorId(doctors, doctorId) ==> r == DoctorNotFound
      ensures IsDoctorId(doctors, doctorId) ==> r == Ok(Filter(doctorSchedules, ForDoctor(doctorId)))
      ensures r.Ok? ==> forall a: Appointment ::
                multiset(r.value)[a] == if a.doctorId == doctorId then multiset(doctorSchedules)[a] else 0
    {
      if doctorId < 0 || doctorId >= |doctors| {
        return DoctorNotFound;
      }
      var result := Filter(doctorSchedules, ForDoctor(doctorId));
      forall a: Appointment
        ensures multiset(result)[a] == if a.doctorId == doctorId then multiset(doctorSchedules)[a] else 0
      {
        FilterCount(doctorSchedules, ForDoctor(doctorId), a);
      }
      return Ok(result);
    }

    /** DELETE /appointments: the loop as written returns during its first
        iteration, so only the first appointment is compared; it is popped
        when it matches, and an empty table falls off the end. */
    method CancelAppointment(req: CancelRequest) returns (r: Response<()>)
      requires Valid()
      modifies this`doctorSchedules
      ensures Valid()
      ensures r == CancelOutcome(old(doctorSchedules), req)
      ensures doctorSchedules == AfterCancel(old(doctorSchedules), req)
    {
      if req.doctorId.None? || req.date.None? || req.time.None? {
        return MissingField;
      }
      var doctorId, date, time := req.doctorId.value, req.date.value, req.time.value;
      var index := 0;
      var position := 0;  // where the for-loop's iterator stands
      var done := false;  // a return statement inside the loop body was reached
      r := NoResponse;    // the answer when the loop body never runs
      while position < |doctorSchedules| && !done
        invariant !done ==> position == 0 && index == 0 && r == NoResponse
        invariant !done ==> doctorSchedules == old(doctorSchedules)
        invariant done ==> |old(doctorSchedules)| > 0
        invariant done ==> r == CancelOutcome(old(doctorSchedules), req)
        invariant done ==> doctorSchedules == AfterCancel(old(doctorSchedules), req)
        invariant NoDuplicateSlots(doctorSchedules)
        decreases if done then 0 else 1
      {
        var sch := doctorSchedules[position];
        if sch.doctorId == doctorId && sch.date == date && sch.time == time {
          CancelKeepsSlotsDistinct(doctorSchedules, req);
          doctorSchedules := doctorSchedules[..index] + doctorSchedules[index + 1..];
          r := Ok(());
        } else {
          index := index + 1;
          r := NothingScheduled;
        }
        done := true;
        position := position + 1;
      }
    }
  }

  /** The seed data satisfies the store invariant. */
  lemma SeedIsValid()
    ensures IdsAreIndices(SeedDoctors)
    ensures LocationIdsInRange(SeedDoctorLocations, SeedLocations)
    ensures NoDuplicateSlots(SeedSchedules)
  {
  }

  /** Booking an already seeded slot is refused as taken. */
  lemma SeedBookingTaken(parse: string -> Option<DateTime>)
    requires parse("2019-01-21 08:00") == Some(DateTime(0, 0))
    ensures Book(SeedDoctors, SeedHours, SeedSchedules, parse,
                 AppointmentRequest(Some(0), Some(0), Some("2019-01-21"), Some("08:00"))) == Taken
  {
    var req := AppointmentRequest(Some(0), Some(0), Some("2019-01-21"), Some("08:00"));
    assert DateTimeText(req) == "2019-01-21 08:00";
    BookDecides(SeedDoctors, SeedHours, SeedSchedules, parse, req);
    assert StrLe("08:00", "08:00") && StrLe("08:00", "17:00");
    assert SeedHours[0].doctorId == 0 && SeedHours[0].dow == 0;
    assert SeedSchedules[0].doctorId == 0;
  }

  /** 08:05 is not on a quarter hour. */
  lemma SeedBookingBadMinutes(parse: string -> Option<DateTime>)
    requires parse("2019-01-21 08:05") == Some(DateTime(5, 0))
    ensures Book(SeedDoctors, SeedHours, SeedSchedules, parse,
                 AppointmentRequest(Some(0), Some(0), Some("2019-01-21"), Some("08:05"))) == BadMinutes
  {
    var req := AppointmentRequest(Some(0), Some(0), Some("2019-01-21"), Some("08:05"));
    assert DateTimeText(req) == "2019-01-21 08:05";
  }

  /** Doctor 0 has no Sunday window. */
  lemma SeedBookingSunday(parse: string -> Option<DateTime>)
    requires parse("2019-01-20 08:00") == Some(DateTime(0, 6))
    ensures Book(SeedDoctors, SeedHours, SeedSchedules, parse,
                 AppointmentRequest(Some(0), Some(0), Some("2019-01-20"), Some("08:00"))) == NotInSchedule
  {
    var req := AppointmentRequest(Some(0), Some(0), Some("2019-01-20"), Some("08:00"));
    assert DateTimeText(req) == "2019-01-20 08:00";
    BookDecides(SeedDoctors, SeedHours, SeedSchedules, parse, req);
  }

  /** A free Monday quarter hour inside doctor 0's window is booked with the
      next appointment id. */
  lemma SeedBookingAccepted(parse: string -> Option<DateTime>)
    requires parse("2019-01-21 08:15") == Some(DateTime(15, 0))
    ensures Book(SeedDoctors, SeedHours, SeedSchedules, parse,
                 AppointmentRequest(Some(0), Some(0), Some("2019-01-21"), Some("08:15")))
         == Ok(Appointment(2, 0, 0, "2019-01-21", "08:15"))
  {
    var req := AppointmentRequest(Some(0), Some(0), Some("2019-01-21"), Some("08:15"));
    assert DateTimeText(req) == "2019-01-21 08:15";
    BookDecides(SeedDoctors, SeedHours, SeedSchedules, parse, req);
    assert StrLe("08:00", "08:15") && StrLe("08:15", "17:00");
    assert SeedHours[0].doctorId == 0 && SeedHours[0].dow == 0;
    assert !SlotBooked(SeedSchedules, 0, "2019-01-21", "08:15") by {
      assert SeedSchedules[0].time == "08:00" && SeedSchedules[1].time == "08:30";
      assert "08:15" != "08:00" by { assert "08:15"[3] != "08:00"[3]; }
      assert "08:15" != "08:30" by { assert "08:15"[3] != "08:30"[3]; }
    }
  }

  /** On the seed data each doctor is answered with the OTHER doctor's locations. */
  lemma SeedJoin()
    ensures LocationIdsInRange(SeedDoctorLocations, SeedLocations)
    ensures JoinLocations(SeedDoctorLocations, SeedLocations, 0) == [SeedLocations[0], SeedLocations[1]]
    ensures JoinLocations(SeedDoctorLocations, SeedLocations, 1) == [SeedLocations[0]]
  {
  }

  /** On the seed data, cancelling the second appointment answers
      NothingScheduled although it exists. */
  lemma SeedCancelMissesSecond()
    ensures SeedSchedules[1].doctorId == 0 && SeedSchedules[1].date == "2019-01-21" &&
            SeedSchedules[1].time == "08:30"
    ensures CancelOutcome(SeedSchedules, CancelRequest(Some(0), Some("2019-01-21"), Some("08:30")))
         == NothingScheduled
  {
  }
}
