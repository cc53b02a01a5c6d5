/** The rows of the five in-memory tables, the request bodies the handlers
    read, and the outcomes they answer with. */
module Records {
  import opened Wrappers

  datatype Doctor = Doctor(id: int, firstName: string, lastName: string)

  datatype Location = Location(id: int, address: string)

  /** Many-to-many association between doctors and locations. */
  datatype DoctorLocation = DoctorLocation(id: int, doctorId: int, locationId: int)

  /** A weekly availability window: `dow` counts from 0 = Monday, `start` and
      `end` are "HH:MM" texts. */
  datatype Hours = Hours(id: int, doctorId: int, dow: int, start: string, end: string)

  /** A booked slot: `date` is "YYYY-MM-DD", `time` is "HH:MM". */
  datatype Appointment = Appointment(id: int, doctorId: int, locationId: int, date: string, time: string)

  type Minute = m: int | 0 <= m < 60
  type Weekday = d: int | 0 <= d < 7

  /** The parts of a parsed date/time the booking rules look at: the minute
      field and the day of the week (0 = Monday). */
  datatype DateTime = DateTime(minute: Minute, weekday: Weekday)

  /** JSON bodies; a field is None when its key is absent. */
  datatype DoctorRequest = DoctorRequest(firstName: Option<string>, lastName: Option<string>)

  datatype AppointmentRequest = AppointmentRequest(
    doctorId: Option<int>, locationId: Option<int>, date: Option<string>, time: Option<string>)

  datatype CancelRequest = CancelRequest(doctorId: Option<int>, date: Option<string>, time: Option<string>)

  /** What a handler answers: a value with status 200, or one of the error
      bodies (MissingField is the 400 answer, the others are 404 answers,
      NoResponse is a handler that returns nothing). */
  datatype Response<T> =
    | Ok(value: T)
    | DoctorNotFound
    | MissingField
    | InvalidDateTime
    | BadMinutes
    | NotInSchedule
    | Taken
    | NothingScheduled
    | NoResponse
  {
    /** The same answer with the success value replaced by the literal "success". */
    function Status(): (r: Response<()>)
      ensures r.Ok? <==> Ok?
    {
      match this
      case Ok(_) => Ok(())
      case DoctorNotFound => DoctorNotFound
      case MissingField => MissingField
      case InvalidDateTime => InvalidDateTime
      case BadMinutes => BadMinutes
      case NotInSchedule => NotInSchedule
      case Taken => Taken
      case NothingScheduled => NothingScheduled
      case NoResponse => NoResponse
    }
  }
}
