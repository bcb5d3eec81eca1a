/** Serialized execution of the admission operations: requests are applied
    one after another, a rejected request leaves the store as it was, and
    the invariants of both controllers are checked across whole runs. */
module Admission {
  import opened Api
  import opened EntityStore
  import opened BookingController
  import opened ClassController

  /** The state-changing requests; the listing queries change nothing. */
  datatype Request =
    | Book(user: Id, classId: Id, now: int)
    | CancelBooking(bookingId: Id)
    | ScheduleClass(req: ClassRequest)
    | Reschedule(classId: Id, fields: ClassFields)
    | RemoveClass(classId: Id)

  function Apply(st: Store, q: Request): Store
  {
    match q
    case Book(u, c, now) =>
      (match CreateBooking(st, u, c, now) case Ok(w) => w.store case Err(_) => st)
    case CancelBooking(id) =>
      (match DeleteBooking(st, id) case Ok(s) => s case Err(_) => st)
    case ScheduleClass(req) =>
      (match CreateClassSchedule(st, req) case Ok(w) => w.store case Err(_) => st)
    case Reschedule(id, fields) =>
      (match UpdateClassSchedule(st, id, fields) case Ok(w) => w.store case Err(_) => st)
    case RemoveClass(id) =>
      (match DeleteClassSchedule(st, id) case Ok(s) => s case Err(_) => st)
  }

  function Run(st: Store, qs: seq<Request>): Store
    decreases |qs|
  {
    if qs == [] then st else Run(Apply(st, qs[0]), qs[1..])
  }

  predicate NoReschedule(qs: seq<Request>)
  {
    forall i :: 0 <= i < |qs| ==> !qs[i].Reschedule?
  }

  /** Every request keeps ids unique and below the allocation counter. */
  lemma ApplyKeepsWellFormed(st: Store, q: Request)
    requires WellFormed(st)
    ensures WellFormed(Apply(st, q))
  {
  }

  /** Every request, updates included, keeps both booking invariants: only
      booking creation and deletion touch bookings. */
  lemma ApplyKeepsBookingInv(st: Store, q: Request)
    requires BookingInv(st)
    ensures BookingInv(Apply(st, q))
  {
    ApplyKeepsWellFormed(st, q);
    match q
    case Book(u, c, now) => CreateBookingPreservesInv(st, u, c, now);
    case CancelBooking(id) => DeleteBookingPreservesInv(st, id);
    case ScheduleClass(req) =>
    case Reschedule(id, fields) =>
    case RemoveClass(id) =>
  }

  /** Every request except an update keeps both class invariants. */
  lemma ApplyKeepsClassInv(st: Store, q: Request)
    requires ClassInv(st)
    requires !q.Reschedule?
    ensures ClassInv(Apply(st, q))
  {
    ApplyKeepsWellFormed(st, q);
    match q
    case Book(u, c, now) =>
    case CancelBooking(id) =>
    case ScheduleClass(req) => CreateClassPreservesInv(st, req);
    case RemoveClass(id) => DeleteClassPreservesInv(st, id);
  }

  /** Any serialized run keeps the booking invariants; a run without
      updates keeps the class invariants too. */
  lemma {:induction false} RunKeepsInvariants(st: Store, qs: seq<Request>)
    requires WellFormed(st)
    ensures BookingInv(st) ==> BookingInv(Run(st, qs))
    ensures ClassInv(st) && NoReschedule(qs) ==> ClassInv(Run(st, qs))
    decreases |qs|
  {
    if qs != [] {
      ApplyKeepsWellFormed(st, qs[0]);
      if BookingInv(st) { ApplyKeepsBookingInv(st, qs[0]); }
      if ClassInv(st) && NoReschedule(qs) {
        ApplyKeepsClassInv(st, qs[0]);
        assert NoReschedule(qs[1..]) by {
          forall i | 0 <= i < |qs[1..]| ensures !qs[1..][i].Reschedule? {
            assert qs[1..][i] == qs[i + 1];
          }
        }
      }
      RunKeepsInvariants(Apply(st, qs[0]), qs[1..]);
    }
  }

  /** Starting from an empty store, every serialized run holds at most ten
      bookings per class and one per (user, class); without updates it also
      holds at most five classes per day and no duplicate triple. */
  lemma FromEmptyStore(qs: seq<Request>)
    ensures BookingInv(Run(Empty, qs))
    ensures NoReschedule(qs) ==> ClassInv(Run(Empty, qs))
  {
    RunKeepsInvariants(Empty, qs);
  }

  /** The controller call behind the request fails on this store. */
  predicate Rejected(st: Store, q: Request)
  {
    match q
    case Book(u, c, now) => CreateBooking(st, u, c, now).Err?
    case CancelBooking(id) => DeleteBooking(st, id).Err?
    case ScheduleClass(req) => CreateClassSchedule(st, req).Err?
    case Reschedule(id, fields) => UpdateClassSchedule(st, id, fields).Err?
    case RemoveClass(id) => DeleteClassSchedule(st, id).Err?
  }

  /** Running two batches in turn is running them back to back. */
  lemma {:induction false} RunConcat(st: Store, a: seq<Request>, b: seq<Request>)
    ensures Run(st, a + b) == Run(Run(st, a), b)
    decreases |a|
  {
    if a == [] {
      assert a + b == b;
    } else {
      assert (a + b)[0] == a[0] && (a + b)[1..] == a[1..] + b;
      RunConcat(Apply(st, a[0]), a[1..], b);
    }
  }

  /** A request that is rejected at its turn has no effect on the run: the
      run with it ends in the same store as the run without it. */
  lemma RejectedRequestIsNoOp(st: Store, before: seq<Request>, q: Request, after: seq<Request>)
    requires Rejected(Run(st, before), q)
    ensures Run(st, before + [q] + after) == Run(st, before + after)
  {
    RunConcat(st, before + [q], after);
    RunConcat(st, before, [q]);
    RunConcat(st, before, after);
    assert [q][1..] == [];
  }

  /** Deleting a class leaves its bookings in place: they are still listed
      for the class id, with the class populated as missing, and the class
      can no longer be booked. */
  lemma DeleteClassLeavesOrphans(st: Store, id: Id, b: BookingDoc, u: Id, now: int)
    requires WellFormed(st)
    requires b in st.bookings && b.body.classId == id
    ensures var r := DeleteClassSchedule(st, id);
      r.Ok? ==>
        && b in r.value.bookings
        && (exists i :: 0 <= i < |GetBookedClasses(r.value, id)|
              && GetBookedClasses(r.value, id)[i] == BookingView(b, None))
        && CreateBooking(r.value, u, id, now) == Err(ClassNotFound)
  {
    var r := DeleteClassSchedule(st, id);
    if r.Ok? {
      DeleteClassRemovesExactly(st, id, ClassFields("", 0, 0, 0));
      var views := GetBookedClasses(r.value, id);
      var i :| 0 <= i < |views| && views[i].booking == b;
      assert !HasId(r.value.classes, id);
      assert views[i] == BookingView(b, None);
    }
  }
}
