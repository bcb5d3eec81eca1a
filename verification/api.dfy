/** The error envelope of the admission logic: every rejection the two
    controllers can raise, with the HTTP status and message it carries. */
module Api {

  datatype Option<+T> = None | Some(value: T)

  /** One kind per `throw new ApiError(status, message)` in the controllers. */
  datatype ApiError =
    | ClassNotFound       // createBooking: the referenced class is absent
    | AlreadyBooked       // createBooking: (user, class) already has a booking
    | ClassFullyBooked    // createBooking: the class holds 10 bookings or more
    | BookingNotFound     // deleteBooking: no booking with that id
    | MissingFields       // createClassSchedule: a field is falsy
    | DayFull             // createClassSchedule: 5 classes already on that day
    | ScheduleExists      // createClassSchedule: identical (name, trainer, schedule)
    | ScheduleNotFound    // get/update/deleteClassSchedule: no class with that id
  {
    /** Missing records answer 404; a full class and missing fields answer
        400; a duplicate booking, a full day and a duplicate schedule answer 409. */
    function Status(): (code: int)
      ensures code in {400, 404, 409}
      ensures code == 404 <==> ClassNotFound? || BookingNotFound? || ScheduleNotFound?
      ensures code == 400 <==> ClassFullyBooked? || MissingFields?
    {
      match this
      case ClassNotFound => 404
      case AlreadyBooked => 409
      case ClassFullyBooked => 400
      case BookingNotFound => 404
      case MissingFields => 400
      case DayFull => 409
      case ScheduleExists => 409
      case ScheduleNotFound => 404
    }

    /** The message sent with the status; every 404 message ends in "not found". */
    function Message(): (m: string)
      ensures Status() == 404 <==> |m| >= 9 && m[|m| - 9..] == "not found"
    {
      match this
      case ClassNotFound => "Class not found"
      case AlreadyBooked => "You have already booked this class"
      case ClassFullyBooked => "Class is fully booked"
      case BookingNotFound => "Booking not found"
      case MissingFields => "All fields are required"
      case DayFull => "Cannot create more than 5 classes on the same day"
      case ScheduleExists => "Class schedule already exists"
      case ScheduleNotFound => "Class schedule not found"
    }
  }

  /** The outcome of one controller call: a value, or the error it throws. */
  datatype Result<+T> = Ok(value: T) | Err(error: ApiError)

  /** Each error kind has its own message, so the two 409 rejections of a
      class create (day full, duplicate schedule) can be told apart. */
  lemma MessageIdentifiesKind(a: ApiError, b: ApiError)
    ensures a.Message() == b.Message() <==> a == b
  {
  }
}
