/** Class scheduling: create, read, update and delete class records, with
    the field, day-cap and exact-duplicate checks of `createClassSchedule`. */
module ClassController {
  import opened Api
  import opened Seqs
  import opened EntityStore

  /** `createClassSchedule` rejects once a day holds this many classes. */
  const MaxClassesPerDay: nat := 5

  /** Schedules are minutes since the epoch; a day is 1440 of them. The
      local-time `setHours(0, 0, 0, 0)` becomes flooring to a multiple. */
  const MinutesPerDay: nat := 1440

  function Day(t: int): int
  {
    t / MinutesPerDay
  }

  /** Start of the day `t` falls on. */
  function Midnight(t: int): int
  {
    Day(t) * MinutesPerDay
  }

  /** The half-open window [midnight, next midnight) is exactly the calendar
      day: a schedule is in it iff it falls on the same day. */
  lemma WindowIsDay(s: int, t: int)
    ensures Midnight(s) <= t < Midnight(s) + MinutesPerDay <==> Day(t) == Day(s)
  {
  }

  /** Day `d` covers the minutes [d * 1440, d * 1440 + 1440). */
  lemma InDay(t: int, d: int)
    ensures d * MinutesPerDay <= t < d * MinutesPerDay + MinutesPerDay <==> Day(t) == d
  {
  }

  /** The next midnight itself already belongs to the following day, so the
      window excludes it. */
  lemma NextMidnightExcluded(s: int)
    ensures Day(Midnight(s) + MinutesPerDay) == Day(s) + 1
    ensures Midnight(s) <= s < Midnight(s) + MinutesPerDay
  {
  }

  /** `Class.countDocuments({ schedule: { $gte: lo, $lt: hi } })` selects these. */
  function ClassesInWindow(cs: seq<ClassDoc>, lo: int, hi: int): seq<ClassDoc>
  {
    Filter(cs, (c: ClassDoc) => lo <= c.body.schedule < hi)
  }

  /** The classes counted against day `d`. */
  function ClassesOnDay(cs: seq<ClassDoc>, d: int): seq<ClassDoc>
  {
    ClassesInWindow(cs, d * MinutesPerDay, d * MinutesPerDay + MinutesPerDay)
  }

  /** `Class.findOne({ className, trainerId, schedule })` finds something iff this is nonempty. */
  function ClassesWithTriple(cs: seq<ClassDoc>, name: string, trainer: Id, schedule: int): seq<ClassDoc>
  {
    Filter(cs, (c: ClassDoc) =>
      c.body.className == name && c.body.trainerId == trainer && c.body.schedule == schedule)
  }

  /** The counted classes of a day are exactly those whose schedule falls on it. */
  lemma ClassesOnDayMeansSameDay(cs: seq<ClassDoc>, d: int)
    ensures forall c :: c in ClassesOnDay(cs, d) <==> c in cs && Day(c.body.schedule) == d
  {
  }

  /** The two class invariants: at most five classes per day and no two
      classes with the same (className, trainerId, schedule). */
  ghost predicate ClassInv(st: Store)
  {
    && WellFormed(st)
    && (forall d :: |ClassesOnDay(st.classes, d)| <= MaxClassesPerDay)
    && (forall n, t, s :: |ClassesWithTriple(st.classes, n, t, s)| <= 1)
  }

  /** A create request body; a missing field is `None`. */
  datatype ClassRequest = ClassRequest(
    className: Option<string>, trainerId: Option<Id>, duration: Option<int>, schedule: Option<int>)

  /** JavaScript truthiness of the four fields: an absent field, an empty
      name and a zero duration are falsy; a negative duration is not. */
  predicate AllFieldsTruthy(req: ClassRequest)
  {
    && req.className.Some? && req.className.value != ""
    && req.trainerId.Some?
    && req.duration.Some? && req.duration.value != 0
    && req.schedule.Some?
  }

  function Fields(req: ClassRequest): ClassFields
    requires AllFieldsTruthy(req)
  {
    ClassFields(req.className.value, req.trainerId.value, req.duration.value, req.schedule.value)
  }

  /** `createClassSchedule`: field check, then day cap, then duplicate check. */
  function CreateClassSchedule(st: Store, req: ClassRequest): (r: Result<Committed<ClassDoc>>)
    ensures r == Err(MissingFields) <==> !AllFieldsTruthy(req)
    ensures r == Err(DayFull) <==>
      && AllFieldsTruthy(req)
      && |ClassesOnDay(st.classes, Day(req.schedule.value))| >= MaxClassesPerDay
    ensures r == Err(ScheduleExists) <==>
      && AllFieldsTruthy(req)
      && |ClassesOnDay(st.classes, Day(req.schedule.value))| < MaxClassesPerDay
      && ClassesWithTriple(st.classes, req.className.value, req.trainerId.value, req.schedule.value) != []
    ensures r.Ok? <==>
      && AllFieldsTruthy(req)
      && |ClassesOnDay(st.classes, Day(req.schedule.value))| < MaxClassesPerDay
      && ClassesWithTriple(st.classes, req.className.value, req.trainerId.value, req.schedule.value) == []
    ensures (r.Err? && r.error.Status() == 400) <==> !AllFieldsTruthy(req)
    ensures (r.Err? && r.error.Status() == 409) <==>
      && AllFieldsTruthy(req)
      && (|ClassesOnDay(st.classes, Day(req.schedule.value))| >= MaxClassesPerDay
          || ClassesWithTriple(st.classes, req.className.value, req.trainerId.value, req.schedule.value) != [])
    ensures r.Ok? ==>
      && r.value.value == Doc(st.nextId, Fields(req))
      && r.value.store == st.(classes := st.classes + [r.value.value], nextId := st.nextId + 1)
  {
    if !AllFieldsTruthy(req) then Err(MissingFields)
    else
      var f := Fields(req);
      var midnight := Midnight(f.schedule);
      if |ClassesInWindow(st.classes, midnight, midnight + MinutesPerDay)| >= MaxClassesPerDay then Err(DayFull)
      else if ClassesWithTriple(st.classes, f.className, f.trainerId, f.schedule) != [] then Err(ScheduleExists)
      else
        var c := Doc(st.nextId, f);
        Ok(Committed(st.(classes := st.classes + [c], nextId := st.nextId + 1), c))
  }

  /** Appending a class adds it to exactly the day its schedule falls on. */
  lemma ClassesOnDayAppend(cs: seq<ClassDoc>, c: ClassDoc, d: int)
    ensures ClassesOnDay(cs + [c], d) == ClassesOnDay(cs, d) + (if Day(c.body.schedule) == d then [c] else [])
  {
    InDay(c.body.schedule, d);
    FilterAppend(cs, c, (x: ClassDoc) => d * MinutesPerDay <= x.body.schedule < d * MinutesPerDay + MinutesPerDay);
  }

  /** A successful create adds one class: its day's count rises by one,
      every other day's count is untouched, its triple now occurs once, and
      bookings are not touched. */
  lemma CreateClassAddsOne(st: Store, req: ClassRequest)
    ensures var r := CreateClassSchedule(st, req);
      r.Ok? ==>
        var day := Day(req.schedule.value);
        && r.value.store.bookings == st.bookings
        && |ClassesOnDay(r.value.store.classes, day)| == |ClassesOnDay(st.classes, day)| + 1
        && (forall d :: d != day ==> ClassesOnDay(r.value.store.classes, d) == ClassesOnDay(st.classes, d))
        && |ClassesWithTriple(r.value.store.classes, req.className.value, req.trainerId.value, req.schedule.value)| == 1
  {
    var r := CreateClassSchedule(st, req);
    if r.Ok? {
      var c := r.value.value;
      var f := c.body;
      assert r.value.store.classes == st.classes + [c];
      ClassesOnDayAppend(st.classes, c, Day(f.schedule));
      FilterAppend(st.classes, c, (x: ClassDoc) =>
        x.body.className == f.className && x.body.trainerId == f.trainerId && x.body.schedule == f.schedule);
      forall d | d != Day(f.schedule)
        ensures ClassesOnDay(r.value.store.classes, d) == ClassesOnDay(st.classes, d)
      {
        ClassesOnDayAppend(st.classes, c, d);
      }
    }
  }

  /** Serialized successful creates keep both class invariants. */
  lemma CreateClassPreservesInv(st: Store, req: ClassRequest)
    requires ClassInv(st)
    ensures var r := CreateClassSchedule(st, req);
      r.Ok? ==> ClassInv(r.value.store)
  {
    var r := CreateClassSchedule(st, req);
    if r.Ok? {
      var st', c := r.value.store, r.value.value;
      var f := c.body;
      AppendFresh(st.classes, st.nextId, f);
      CreateClassAddsOne(st, req);
      forall n, t, s ensures |ClassesWithTriple(st'.classes, n, t, s)| <= 1 {
        FilterAppend(st.classes, c, (x: ClassDoc) =>
          x.body.className == n && x.body.trainerId == t && x.body.schedule == s);
        assert ClassesWithTriple(st'.classes, n, t, s) ==
          ClassesWithTriple(st.classes, n, t, s)
          + (if f.className == n && f.trainerId == t && f.schedule == s then [c] else []);
      }
    }
  }

  /** `getClassSchedules`: every class, unfiltered. */
  function GetClassSchedules(st: Store): seq<ClassDoc>
  {
    st.classes
  }

  /** `getClassScheduleById`. */
  function GetClassScheduleById(st: Store, id: Id): (r: Result<ClassDoc>)
    ensures r == Err(ScheduleNotFound) <==> !HasId(st.classes, id)
    ensures r.Ok? <==> HasId(st.classes, id)
    ensures r.Ok? ==> r.value in st.classes && r.value.id == id
    ensures r.Err? ==> r.error.Status() == 404
  {
    match FindById(st.classes, id)
    case None => Err(ScheduleNotFound)
    case Some(c) => Ok(c)
  }

  /** Every listed class can be fetched by its id, and the fetch returns it. */
  lemma ListedClassesAreGettable(st: Store)
    requires WellFormed(st)
    ensures forall i :: 0 <= i < |GetClassSchedules(st)| ==>
      GetClassScheduleById(st, GetClassSchedules(st)[i].id) == Ok(GetClassSchedules(st)[i])
  {
  }

  /** `updateClassSchedule`: a full replace of the four fields of the class
      with that id. Neither the field check, the day cap nor the duplicate
      check is run. */
  function UpdateClassSchedule(st: Store, id: Id, fields: ClassFields): (r: Result<Committed<ClassDoc>>)
    ensures r == Err(ScheduleNotFound) <==> !HasId(st.classes, id)
    ensures r.Ok? <==> HasId(st.classes, id)
    ensures r.Ok? ==>
      && r.value.value == Doc(id, fields)
      && r.value.value in r.value.store.classes
      && r.value.store.bookings == st.bookings
      && r.value.store.nextId == st.nextId
      && |r.value.store.classes| == |st.classes|
      && (forall i :: 0 <= i < |st.classes| ==> r.value.store.classes[i].id == st.classes[i].id)
    ensures r.Ok? ==> forall i :: 0 <= i < |st.classes| && st.classes[i].id != id ==>
      r.value.store.classes[i] == st.classes[i]
    ensures r.Err? ==> r.error.Status() == 404
  {
    match FindByIdAndUpdate(st.classes, id, fields)
    case None => Err(ScheduleNotFound)
    case Some((c, classes)) => Ok(Committed(st.(classes := classes), c))
  }

  /** Update does not re-check the day cap: moving a class from another day
      onto a day that already holds five yields six classes on that day. */
  lemma UpdateCanBreakDayCap(st: Store, id: Id, fields: ClassFields)
    requires ClassInv(st)
    requires HasId(st.classes, id)
    requires |ClassesOnDay(st.classes, Day(fields.schedule))| == MaxClassesPerDay
    requires Day(FindById(st.classes, id).value.body.schedule) != Day(fields.schedule)
    ensures var r := UpdateClassSchedule(st, id, fields);
      r.Ok? && |ClassesOnDay(r.value.store.classes, Day(fields.schedule))| == MaxClassesPerDay + 1
      && !ClassInv(r.value.store)
  {
    var k := IndexOf(st.classes, id).value;
    var d := Day(fields.schedule);
    var lo := d * MinutesPerDay;
    InDay(fields.schedule, d);
    InDay(st.classes[k].body.schedule, d);
    FilterReplace(st.classes, k, Doc(id, fields), (x: ClassDoc) => lo <= x.body.schedule < lo + MinutesPerDay);
  }

  /** Update does not re-check duplicates either: copying another class's
      triple onto a class produces a duplicate. */
  lemma UpdateCanDuplicate(st: Store, id: Id, other: ClassDoc, duration: int)
    requires ClassInv(st)
    requires HasId(st.classes, id)
    requires other in st.classes && other.id != id
    ensures var r := UpdateClassSchedule(st, id, other.body.(duration := duration));
      r.Ok? && !ClassInv(r.value.store)
  {
    var f := other.body.(duration := duration);
    var k := IndexOf(st.classes, id).value;
    var p := (x: ClassDoc) =>
      x.body.className == f.className && x.body.trainerId == f.trainerId && x.body.schedule == f.schedule;
    var before := ClassesWithTriple(st.classes, f.className, f.trainerId, f.schedule);
    assert other in before;
    if p(st.classes[k]) {
      assert st.classes[k] in before;
      TwoMembers(before, other, st.classes[k]);
      assert false;
    }
    FilterReplace(st.classes, k, Doc(id, f), p);
    var r := UpdateClassSchedule(st, id, f);
    assert r.value.store.classes == st.classes[k := Doc(id, f)];
    assert |ClassesWithTriple(r.value.store.classes, f.className, f.trainerId, f.schedule)| == |before| + 1;
  }

  /** `deleteClassSchedule`: removes the class record only; bookings that
      reference it stay in the store. */
  function DeleteClassSchedule(st: Store, id: Id): (r: Result<Store>)
    ensures r == Err(ScheduleNotFound) <==> !HasId(st.classes, id)
    ensures r.Ok? <==> HasId(st.classes, id)
    ensures r.Ok? ==>
      && r.value.bookings == st.bookings
      && r.value.nextId == st.nextId
      && |r.value.classes| == |st.classes| - 1
    ensures r.Err? ==> r.error.Status() == 404
  {
    match FindByIdAndDelete(st.classes, id)
    case None => Err(ScheduleNotFound)
    case Some((_, rest)) => Ok(st.(classes := rest))
  }

  /** Deleting a present class removes exactly that class; afterwards the id
      is not found by get, update or a second delete. */
  lemma DeleteClassRemovesExactly(st: Store, id: Id, fields: ClassFields)
    requires WellFormed(st)
    ensures var r := DeleteClassSchedule(st, id);
      r.Ok? ==>
        && WellFormed(r.value)
        && (forall c :: c in r.value.classes <==> c in st.classes && c.id != id)
        && GetClassScheduleById(r.value, id) == Err(ScheduleNotFound)
        && UpdateClassSchedule(r.value, id, fields) == Err(ScheduleNotFound)
        && DeleteClassSchedule(r.value, id) == Err(ScheduleNotFound)
  {
  }

  /** Deleting a class keeps both class invariants. */
  lemma DeleteClassPreservesInv(st: Store, id: Id)
    requires ClassInv(st)
    ensures var r := DeleteClassSchedule(st, id);
      r.Ok? ==> ClassInv(r.value)
  {
    var r := DeleteClassSchedule(st, id);
    if r.Ok? {
      DeleteClassRemovesExactly(st, id, ClassFields("", 0, 0, 0));
      var k := IndexOf(st.classes, id).value;
      assert r.value.classes == RemoveAt(st.classes, k);
      forall d ensures |ClassesOnDay(r.value.classes, d)| <= MaxClassesPerDay {
        FilterRemoveAt(st.classes, k, (x: ClassDoc) =>
          d * MinutesPerDay <= x.body.schedule < d * MinutesPerDay + MinutesPerDay);
        assert |ClassesOnDay(r.value.classes, d)| <= |ClassesOnDay(st.classes, d)|;
      }
      forall n, t, s ensures |ClassesWithTriple(r.value.classes, n, t, s)| <= 1 {
        FilterRemoveAt(st.classes, k, (x: ClassDoc) =>
          x.body.className == n && x.body.trainerId == t && x.body.schedule == s);
        assert |ClassesWithTriple(r.value.classes, n, t, s)| <= |ClassesWithTriple(st.classes, n, t, s)|;
      }
    }
  }
}
