# Gym scheduler admission logic, in Dafny

This project models the admission logic of a gym class scheduler: the two
Express controllers that decide whether a booking or a new class schedule is
accepted. The Mongo-backed Entity Store becomes an immutable value
(`EntityStore.Store`): a sequence of class documents and a sequence of
booking documents, each with a store-assigned id. Every controller
operation is a pure function of the store and the request. An operation
that can fail returns either an `ApiError` (a kind carrying the source's
HTTP status and message) or a success value. Creating a booking or class and updating a class succeed with
the new store plus the created or updated document. Deleting a booking or a
class succeeds with the new store alone, and getting a class by id succeeds
with the class alone. The three booking listings and the class listing
cannot fail and return a plain sequence. Calls are serialized. An error
carries no store, so a rejected call leaves the old store in force.

Files and modules:

- `api.dfy` (`Api`): `Option`, `Result`, and the eight error kinds the
  controllers throw, with their status codes (400, 404, 409) and messages.
- `seqs.dfy` (`Seqs`): `Filter`, the model of `find(filter)`; its length
  models `countDocuments(filter)`. Also lemmas on how a selection changes
  when an element is appended, removed or replaced.
- `entity_store.dfy` (`EntityStore`): document shapes from
  `class.model.js` and `booking.model.js`, plus `findById`,
  `findByIdAndDelete` and `findByIdAndUpdate`.
- `booking_controller.dfy` (`BookingController`): `createBooking`,
  `deleteBooking`, and the three listings. Also the booking invariants:
  at most 10 bookings per class and at most one booking per (user, class).
- `class_controller.dfy` (`ClassController`): `createClassSchedule`,
  `getClassSchedules`, `getClassScheduleById`, `updateClassSchedule` and
  `deleteClassSchedule`. Also the class invariants: at most 5 classes per
  day and no two classes with the same (className, trainerId, schedule).
- `admission.dfy` (`Admission`): serialized runs of requests, and which
  requests keep which invariant.

The model fixes these points:

- `schedule` is an integer count of minutes since the epoch. The day is
  `schedule / 1440` and midnight is `day * 1440`. This replaces the
  local-time `setHours(0, 0, 0, 0)` and `setDate(+1)`.
- The check order is kept. `createBooking` checks that the class exists,
  then that the pair is not already booked, then that the class has room.
  `createClassSchedule` checks the fields, then the day cap, then for an
  exact duplicate.
- A full class is rejected with 400, not 409, as the code does.
- The field check is JavaScript truthiness. An absent field, an empty
  `className` and a zero `duration` are rejected. A negative `duration` is
  accepted.
- Ids come from one counter, `nextId`, and are never reused. This matches
  globally unique ObjectIds.

## Model

| member | source | states |
|---|---|---|
| BookingController.CreateBooking | src/booking/booking.controller.js:8-37 | status 404 iff the class is absent; status 409 iff it exists and the (user, class) pair is already booked; status 400 iff it exists, is not booked by the user and holds 10 or more bookings; otherwise one booking (user, class, now) with a fresh id is appended |
| BookingController.CreateBookingAddsOne | src/booking/booking.controller.js:34-37 | on success the class's booking count rises by exactly one, every other class's bookings are unchanged, the pair has exactly one booking, classes are untouched |
| BookingController.CreateBookingPreservesInv | src/booking/booking.controller.js:19-37 | a successful booking keeps "at most 10 per class" and "at most one per (user, class)" |
| BookingController.BookTwiceConflicts | src/booking/booking.controller.js:19-25 | booking the same class again right after a successful booking fails with 409 |
| BookingController.DeleteBooking | src/booking/booking.controller.js:82-90 | 404 iff no booking has the id, and success iff one has it; on success classes and the id counter are unchanged and one booking is gone |
| BookingController.DeleteBookingRemovesExactly | src/booking/booking.controller.js:86-90 | on a well-formed store the remaining bookings are exactly the old ones without that id, and a second delete of the id fails with 404 |
| BookingController.DeleteBookingPreservesInv | src/booking/booking.controller.js:86 | deleting a booking keeps both booking invariants |
| BookingController.Populate | src/booking/booking.controller.js:74 | each listed booking is paired with its class, which is missing exactly when no class has the referenced id |
| BookingController.GetUserBookings | src/booking/booking.controller.js:45-50 | lists exactly the caller's bookings, each once and in store order, each with its class populated (missing when the class is gone) |
| BookingController.GetBookedClasses | src/booking/booking.controller.js:58-63 | lists exactly the bookings of the class, each once and in store order, each with its class populated (missing when the class is gone) |
| BookingController.GetAllBookings | src/booking/booking.controller.js:73-74 | every booking is listed once, in store order, with its class populated (missing when the class is gone) |
| BookingController.ListingsAgreeWithAll | src/booking/booking.controller.js:48-74 | every entry of the per-user and per-class listings appears, with the same populated class, in the full listing, and every entry of the full listing appears in the listing of its user and in the listing of its class |
| Api.ApiError.Status | src/class/class.controller.js:11-123 | the absent-record errors answer 404, a full class and missing fields answer 400, and the remaining errors answer 409, as thrown in both controllers |
| Api.ApiError.Message | src/booking/booking.controller.js:13-90 | each kind carries the literal message its controller throws, and exactly the 404 kinds have a message ending in "not found" |
| Api.MessageIdentifiesKind | src/class/class.controller.js:28-44 | no two error kinds share a message, so the day-full and duplicate-schedule rejections, both 409, are told apart by their messages |
| EntityStore.DeleteRemovesExactly | src/booking/booking.controller.js:86 | deleting by id from a collection with unique ids leaves exactly the documents with other ids, still unique |
| ClassController.WindowIsDay | src/class/class.controller.js:16-24 | a schedule lies in [midnight, next midnight) of another schedule iff both fall on the same day |
| ClassController.NextMidnightExcluded | src/class/class.controller.js:21-24 | the next midnight belongs to the following day, and a schedule lies in its own window |
| ClassController.ClassesOnDayMeansSameDay | src/class/class.controller.js:20-25 | the classes counted against a day are exactly those whose schedule falls on that day |
| ClassController.CreateClassSchedule | src/class/class.controller.js:7-52 | status 400 iff a field is falsy; status 409 iff the fields are truthy and either the day is full or the triple exists; the day-full error iff the fields are truthy and the day already holds 5 or more classes; the duplicate error iff the day has room and the identical triple exists; otherwise one class with the given fields and a fresh id is appended |
| ClassController.CreateClassAddsOne | src/class/class.controller.js:47-52 | on success the day's count rises by exactly one, other days are unchanged, the triple occurs exactly once, bookings are untouched |
| ClassController.CreateClassPreservesInv | src/class/class.controller.js:20-52 | a successful create keeps "at most 5 classes per day" and "no duplicate triple" |
| ClassController.GetClassScheduleById | src/class/class.controller.js:73-80 | 404 iff no class has the id, and success iff one has it; on success the stored class with that id |
| ClassController.ListedClassesAreGettable | src/class/class.controller.js:62-80 | on a well-formed store every class in the full listing is returned by a get of its id |
| ClassController.UpdateClassSchedule | src/class/class.controller.js:94-106 | 404 iff no class has the id, and success iff one has it; on success the class with that id now holds the new fields, every class with another id is unchanged in place, bookings are unchanged, and no check is run |
| ClassController.UpdateCanBreakDayCap | src/class/class.controller.js:98-102 | moving a class onto a day that already holds 5 classes succeeds and leaves 6 on that day, breaking the class invariant |
| ClassController.UpdateCanDuplicate | src/class/class.controller.js:98-102 | copying another class's triple onto a class succeeds and breaks the no-duplicate invariant |
| ClassController.DeleteClassSchedule | src/class/class.controller.js:116-123 | 404 iff no class has the id, and success iff one has it; on success bookings and the id counter are unchanged and one class is gone |
| ClassController.DeleteClassRemovesExactly | src/class/class.controller.js:119-123 | the remaining classes are exactly the old ones without that id; get, update and delete of the id then fail with 404 |
| ClassController.DeleteClassPreservesInv | src/class/class.controller.js:119 | deleting a class keeps both class invariants |
| Admission.ApplyKeepsWellFormed | src/class/class.model.js:5-12 | every request keeps document ids unique and below the id counter |
| Admission.ApplyKeepsBookingInv | src/booking/booking.controller.js:19-37 | every request, updates included, keeps both booking invariants |
| Admission.ApplyKeepsClassInv | src/class/class.controller.js:20-52 | every request other than an update keeps both class invariants |
| Admission.RunKeepsInvariants | src/booking/booking.controller.js:13-37 | any serialized run keeps the booking invariants, and a run without updates keeps the class invariants |
| Admission.FromEmptyStore | src/class/class.controller.js:16-52 | from an empty store every serialized run satisfies the booking invariants, and the class invariants when it has no update |
| Admission.RejectedRequestIsNoOp | src/booking/booking.controller.js:13-31 | a request whose controller call is rejected at its turn can be dropped from a serialized run without changing the final store |
| Admission.DeleteClassLeavesOrphans | src/class/class.controller.js:119 | after a class is deleted its bookings stay, are still listed for the class id with the class shown as missing, and the class can no longer be booked |

## Left out

- Concurrency: the check-then-write race between the count or find and the `create` is not modelled. Only serialized execution is, so the invariants above hold for serialized runs only.
- Authentication and roles: the JWT middleware and the admin gate are not modelled. The caller's user id is a parameter, and any caller may delete any booking, as in the code.
- Users: the user collection is not modelled, so `populate("user")` is not either. A listed booking keeps the user id only.
- Dates and time zones: `schedule` is minutes since the epoch and a day is exactly 1440 minutes. Local-time midnights and daylight-saving days of 23 or 25 hours are not modelled.
- Id casting: ids are natural numbers. A malformed ObjectId, which Mongoose rejects with a cast error answered as 500, is not modelled.
- ClassController.CreateClassSchedule: treats `schedule` as falsy only when it is absent. A schedule sent as the JSON number 0 or as an empty string is not modelled.
- ClassController.CreateClassSchedule: `duration` is an integer. The source stores a JavaScript number, so a fractional duration is truthy and stored as sent, and the model cannot express it.
- ClassController.UpdateClassSchedule: takes all four fields. An update body that leaves some fields out is not modelled, nor is what Mongoose does with them.
- The response envelope, the success statuses (201 and 200) and the `createdAt`/`updatedAt` timestamps are not modelled.
- Store failures and the 500 path of the error handler are not modelled.
- `getClassSchedules` has no contract of its own, since it returns the class list as is. ListedClassesAreGettable relates it to get-by-id.
