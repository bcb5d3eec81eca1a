/** Booking admission: create, list and delete bookings, with the
    existence, one-per-user and ten-per-class checks of `createBooking`. */
module BookingController {
  import opened Api
  import opened Seqs
  import opened EntityStore

  /** `createBooking` rejects once a class holds this many bookings. */
  const MaxBookingsPerClass: nat := 10

  /** `Booking.find({ class: c })`; its length is `countDocuments`. */
  function BookingsOfClass(bs: seq<BookingDoc>, c: Id): seq<BookingDoc>
  {
    Filter(bs, (b: BookingDoc) => b.body.classId == c)
  }

  /** `Booking.find({ user: u })`. */
  function BookingsOfUser(bs: seq<BookingDoc>, u: Id): seq<BookingDoc>
  {
    Filter(bs, (b: BookingDoc) => b.body.user == u)
  }

  /** `Booking.findOne({ user: u, class: c })` finds something iff this is nonempty. */
  function BookingsOfPair(bs: seq<BookingDoc>, u: Id, c: Id): seq<BookingDoc>
  {
    Filter(bs, (b: BookingDoc) => b.body.user == u && b.body.classId == c)
  }

  /** The two booking invariants: at most ten bookings per class and at
      most one booking per (user, class) pair. */
  ghost predicate BookingInv(st: Store)
  {
    && WellFormed(st)
    && (forall c :: |BookingsOfClass(st.bookings, c)| <= MaxBookingsPerClass)
    && (forall u, c :: |BookingsOfPair(st.bookings, u, c)| <= 1)
  }

  /** `createBooking` for the authenticated `userId`, at time `now`. */
  function CreateBooking(st: Store, userId: Id, classId: Id, now: int): (r: Result<Committed<BookingDoc>>)
    ensures r == Err(ClassNotFound) <==> !HasId(st.classes, classId)
    ensures r == Err(AlreadyBooked) <==>
      HasId(st.classes, classId) && BookingsOfPair(st.bookings, userId, classId) != []
    ensures r == Err(ClassFullyBooked) <==>
      && HasId(st.classes, classId)
      && BookingsOfPair(st.bookings, userId, classId) == []
      && |BookingsOfClass(st.bookings, classId)| >= MaxBookingsPerClass
    ensures r.Ok? <==>
      && HasId(st.classes, classId)
      && BookingsOfPair(st.bookings, userId, classId) == []
      && |BookingsOfClass(st.bookings, classId)| < MaxBookingsPerClass
    ensures (r.Err? && r.error.Status() == 404) <==> !HasId(st.classes, classId)
    ensures (r.Err? && r.error.Status() == 409) <==>
      HasId(st.classes, classId) && BookingsOfPair(st.bookings, userId, classId) != []
    ensures (r.Err? && r.error.Status() == 400) <==>
      && HasId(st.classes, classId)
      && BookingsOfPair(st.bookings, userId, classId) == []
      && |BookingsOfClass(st.bookings, classId)| >= MaxBookingsPerClass
    ensures r.Ok? ==>
      && r.value.value == Doc(st.nextId, BookingFields(userId, classId, now))
      && r.value.store == st.(bookings := st.bookings + [r.value.value], nextId := st.nextId + 1)
  {
    if !HasId(st.classes, classId) then Err(ClassNotFound)
    else if BookingsOfPair(st.bookings, userId, classId) != [] then Err(AlreadyBooked)
    else if |BookingsOfClass(st.bookings, classId)| >= MaxBookingsPerClass then Err(ClassFullyBooked)
    else
      var booking := Doc(st.nextId, BookingFields(userId, classId, now));
      Ok(Committed(st.(bookings := st.bookings + [booking], nextId := st.nextId + 1), booking))
  }

  /** A successful booking adds one record: the class's count rises by one,
      every other class's count is untouched, and the pair now has exactly
      one booking. Classes are not touched. */
  lemma CreateBookingAddsOne(st: Store, userId: Id, classId: Id, now: int)
    ensures var r := CreateBooking(st, userId, classId, now);
      r.Ok? ==>
        && r.value.store.classes == st.classes
        && |BookingsOfClass(r.value.store.bookings, classId)| == |BookingsOfClass(st.bookings, classId)| + 1
        && (forall c :: c != classId ==>
              BookingsOfClass(r.value.store.bookings, c) == BookingsOfClass(st.bookings, c))
        && |BookingsOfPair(r.value.store.bookings, userId, classId)| == 1
  {
    var r := CreateBooking(st, userId, classId, now);
    if r.Ok? {
      var b := r.value.value;
      FilterAppend(st.bookings, b, (d: BookingDoc) => d.body.classId == classId);
      FilterAppend(st.bookings, b, (d: BookingDoc) => d.body.user == userId && d.body.classId == classId);
      forall c | c != classId
        ensures BookingsOfClass(r.value.store.bookings, c) == BookingsOfClass(st.bookings, c)
      {
        FilterAppend(st.bookings, b, (d: BookingDoc) => d.body.classId == c);
      }
    }
  }

  /** Serialized successful bookings keep both booking invariants. */
  lemma CreateBookingPreservesInv(st: Store, userId: Id, classId: Id, now: int)
    requires BookingInv(st)
    ensures var r := CreateBooking(st, userId, classId, now);
      r.Ok? ==> BookingInv(r.value.store)
  {
    var r := CreateBooking(st, userId, classId, now);
    if r.Ok? {
      var st', b := r.value.store, r.value.value;
      AppendFresh(st.bookings, st.nextId, b.body);
      forall c ensures |BookingsOfClass(st'.bookings, c)| <= MaxBookingsPerClass {
        FilterAppend(st.bookings, b, (d: BookingDoc) => d.body.classId == c);
        assert BookingsOfClass(st'.bookings, c) ==
          BookingsOfClass(st.bookings, c) + (if c == classId then [b] else []);
      }
      forall u, c ensures |BookingsOfPair(st'.bookings, u, c)| <= 1 {
        FilterAppend(st.bookings, b, (d: BookingDoc) => d.body.user == u && d.body.classId == c);
        assert BookingsOfPair(st'.bookings, u, c) ==
          BookingsOfPair(st.bookings, u, c) + (if u == userId && c == classId then [b] else []);
      }
    }
  }

  /** Booking the same class twice in a row: the second call is rejected as
      already booked, whatever the class's fill level. */
  lemma BookTwiceConflicts(st: Store, userId: Id, classId: Id, now: int, later: int)
    ensures var r := CreateBooking(st, userId, classId, now);
      r.Ok? ==> CreateBooking(r.value.store, userId, classId, later) == Err(AlreadyBooked)
  {
    CreateBookingAddsOne(st, userId, classId, now);
  }

  /** `deleteBooking`: any caller may delete any booking by id. */
  function DeleteBooking(st: Store, bookingId: Id): (r: Result<Store>)
    ensures r == Err(BookingNotFound) <==> !HasId(st.bookings, bookingId)
    ensures r.Ok? <==> HasId(st.bookings, bookingId)
    ensures r.Ok? ==>
      && r.value.classes == st.classes
      && r.value.nextId == st.nextId
      && |r.value.bookings| == |st.bookings| - 1
    ensures r.Err? ==> r.error.Status() == 404
  {
    match FindByIdAndDelete(st.bookings, bookingId)
    case None => Err(BookingNotFound)
    case Some((_, rest)) => Ok(st.(bookings := rest))
  }

  /** Deleting a present booking removes exactly that booking, so deleting
      the same id again is rejected as not found. */
  lemma DeleteBookingRemovesExactly(st: Store, bookingId: Id)
    requires WellFormed(st)
    ensures var r := DeleteBooking(st, bookingId);
      r.Ok? ==>
        && WellFormed(r.value)
        && (forall d :: d in r.value.bookings <==> d in st.bookings && d.id != bookingId)
        && DeleteBooking(r.value, bookingId) == Err(BookingNotFound)
  {
  }

  /** Deleting a booking keeps both booking invariants. */
  lemma DeleteBookingPreservesInv(st: Store, bookingId: Id)
    requires BookingInv(st)
    ensures var r := DeleteBooking(st, bookingId);
      r.Ok? ==> BookingInv(r.value)
  {
    var r := DeleteBooking(st, bookingId);
    if r.Ok? {
      DeleteBookingRemovesExactly(st, bookingId);
      var k := IndexOf(st.bookings, bookingId).value;
      assert r.value.bookings == RemoveAt(st.bookings, k);
      forall c ensures |BookingsOfClass(r.value.bookings, c)| <= MaxBookingsPerClass {
        FilterRemoveAt(st.bookings, k, (d: BookingDoc) => d.body.classId == c);
        assert |BookingsOfClass(r.value.bookings, c)| <= |BookingsOfClass(st.bookings, c)|;
      }
      forall u, c ensures |BookingsOfPair(r.value.bookings, u, c)| <= 1 {
        FilterRemoveAt(st.bookings, k, (d: BookingDoc) => d.body.user == u && d.body.classId == c);
        assert |BookingsOfPair(r.value.bookings, u, c)| <= |BookingsOfPair(st.bookings, u, c)|;
      }
    }
  }

  /** A listed booking with its class populated; `cls` is `None` when the
      referenced class no longer exists (Mongoose populates it as null). */
  datatype BookingView = BookingView(booking: BookingDoc, cls: Option<ClassDoc>)

  /** `.populate("class")` over a list of bookings. */
  function Populate(st: Store, bs: seq<BookingDoc>): (r: seq<BookingView>)
    ensures |r| == |bs|
    ensures forall i :: 0 <= i < |r| ==> r[i].booking == bs[i]
    ensures forall i :: 0 <= i < |r| ==>
      && (r[i].cls.None? <==> !HasId(st.classes, bs[i].body.classId))
      && (r[i].cls.Some? ==> r[i].cls.value in st.classes && r[i].cls.value.id == bs[i].body.classId)
  {
    seq(|bs|, i requires 0 <= i < |bs| => BookingView(bs[i], FindById(st.classes, bs[i].body.classId)))
  }

  /** `getUserBookings`: exactly the caller's bookings, in store order, each
      with its class populated. */
  function GetUserBookings(st: Store, userId: Id): (r: seq<BookingView>)
    ensures |r| == |BookingsOfUser(st.bookings, userId)|
    ensures forall i :: 0 <= i < |r| ==> r[i].booking == BookingsOfUser(st.bookings, userId)[i]
    ensures forall i :: 0 <= i < |r| ==> r[i].booking in st.bookings && r[i].booking.body.user == userId
    ensures forall b :: b in st.bookings && b.body.user == userId ==>
      exists i :: 0 <= i < |r| && r[i].booking == b
    ensures forall i :: 0 <= i < |r| ==> r[i].cls == FindById(st.classes, r[i].booking.body.classId)
  {
    var r := Populate(st, BookingsOfUser(st.bookings, userId));
    assert forall i :: 0 <= i < |r| ==> r[i].booking in BookingsOfUser(st.bookings, userId);
    r
  }

  /** `getBookedClasses`: exactly the bookings of the given class, in store
      order, each with its class populated. */
  function GetBookedClasses(st: Store, classId: Id): (r: seq<BookingView>)
    ensures |r| == |BookingsOfClass(st.bookings, classId)|
    ensures forall i :: 0 <= i < |r| ==> r[i].booking == BookingsOfClass(st.bookings, classId)[i]
    ensures forall i :: 0 <= i < |r| ==> r[i].booking in st.bookings && r[i].booking.body.classId == classId
    ensures forall b :: b in st.bookings && b.body.classId == classId ==>
      exists i :: 0 <= i < |r| && r[i].booking == b
    ensures forall i :: 0 <= i < |r| ==> r[i].cls == FindById(st.classes, r[i].booking.body.classId)
  {
    var r := Populate(st, BookingsOfClass(st.bookings, classId));
    assert forall i :: 0 <= i < |r| ==> r[i].booking in BookingsOfClass(st.bookings, classId);
    r
  }

  /** `getAllBookings`: every booking, in store order, each with its class populated. */
  function GetAllBookings(st: Store): (r: seq<BookingView>)
    ensures |r| == |st.bookings|
    ensures forall i :: 0 <= i < |r| ==> r[i].booking == st.bookings[i]
    ensures forall i :: 0 <= i < |r| ==> r[i].cls == FindById(st.classes, r[i].booking.body.classId)
  {
    Populate(st, st.bookings)
  }

  /** The per-user and per-class listings agree with the full listing: every
      entry they show appears, with the same populated class, in
      `getAllBookings`, and every entry of the full listing appears in the
      listing of its user and in the listing of its class. */
  lemma ListingsAgreeWithAll(st: Store, userId: Id, classId: Id)
    ensures forall i :: 0 <= i < |GetUserBookings(st, userId)| ==>
      GetUserBookings(st, userId)[i] in GetAllBookings(st)
    ensures forall i :: 0 <= i < |GetBookedClasses(st, classId)| ==>
      GetBookedClasses(st, classId)[i] in GetAllBookings(st)
    ensures forall i :: 0 <= i < |GetAllBookings(st)| ==>
      && GetAllBookings(st)[i] in GetUserBookings(st, GetAllBookings(st)[i].booking.body.user)
      && GetAllBookings(st)[i] in GetBookedClasses(st, GetAllBookings(st)[i].booking.body.classId)
  {
  }
}
