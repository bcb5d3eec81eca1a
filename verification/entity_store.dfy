/** The Entity Store the controllers talk to: two collections of documents,
    each document carrying a store-assigned id. Calls are serialized, so the
    store is an immutable value and every write returns a new one. */
module EntityStore {
  import opened Api
  import opened Seqs

  type Id = nat

  /** A stored document: the store-assigned `_id` and the schema fields. */
  datatype Doc<T> = Doc(id: Id, body: T)

  /** Class schema. `schedule` is minutes since the epoch. */
  datatype ClassFields = ClassFields(className: string, trainerId: Id, duration: int, schedule: int)

  /** Booking schema. `bookingDate` defaults to the creation time. */
  datatype BookingFields = BookingFields(user: Id, classId: Id, bookingDate: int)

  type ClassDoc = Doc<ClassFields>
  type BookingDoc = Doc<BookingFields>

  /** `nextId` is the id the store hands to the next created document. */
  datatype Store = Store(classes: seq<ClassDoc>, bookings: seq<BookingDoc>, nextId: nat)

  /** The result of a successful write: the new store and the returned document. */
  datatype Committed<T> = Committed(store: Store, value: T)

  const Empty: Store := Store([], [], 0)

  predicate HasId<T>(docs: seq<Doc<T>>, id: Id)
  {
    exists i :: 0 <= i < |docs| && docs[i].id == id
  }

  /** No two documents of a collection share an id. */
  predicate UniqueIds<T>(docs: seq<Doc<T>>)
  {
    forall i, j :: 0 <= i < |docs| && 0 <= j < |docs| && docs[i].id == docs[j].id ==> i == j
  }

  predicate IdsBelow<T>(docs: seq<Doc<T>>, n: nat)
  {
    forall i :: 0 <= i < |docs| ==> docs[i].id < n
  }

  /** Ids are unique per collection and all were handed out already. */
  predicate WellFormed(st: Store)
  {
    && UniqueIds(st.classes) && IdsBelow(st.classes, st.nextId)
    && UniqueIds(st.bookings) && IdsBelow(st.bookings, st.nextId)
  }

  /** Position of the first document with the given id (`findById`). */
  function IndexOf<T>(docs: seq<Doc<T>>, id: Id): (r: Option<nat>)
    ensures r.None? <==> !HasId(docs, id)
    ensures r.Some? ==> r.value < |docs| && docs[r.value].id == id
    ensures r.Some? ==> forall j :: 0 <= j < r.value ==> docs[j].id != id
  {
    if docs == [] then None
    else if docs[0].id == id then Some(0)
    else match IndexOf(docs[1..], id)
      case None => None
      case Some(k) => Some(k + 1)
  }

  function FindById<T>(docs: seq<Doc<T>>, id: Id): (r: Option<Doc<T>>)
    ensures r.None? <==> !HasId(docs, id)
    ensures r.Some? ==> r.value in docs && r.value.id == id
  {
    match IndexOf(docs, id)
    case None => None
    case Some(k) => Some(docs[k])
  }

  /** `findByIdAndDelete`: the removed document and the collection without it. */
  function FindByIdAndDelete<T>(docs: seq<Doc<T>>, id: Id): (r: Option<(Doc<T>, seq<Doc<T>>)>)
    ensures r.None? <==> !HasId(docs, id)
    ensures r.Some? ==> r.value.0 in docs && r.value.0.id == id && |r.value.1| == |docs| - 1
  {
    match IndexOf(docs, id)
    case None => None
    case Some(k) => Some((docs[k], RemoveAt(docs, k)))
  }

  /** `findByIdAndUpdate(.., {new: true})`: the replaced document and the new collection. */
  function FindByIdAndUpdate<T>(docs: seq<Doc<T>>, id: Id, body: T): (r: Option<(Doc<T>, seq<Doc<T>>)>)
    ensures r.None? <==> !HasId(docs, id)
    ensures r.Some? ==> r.value.0 == Doc(id, body) && r.value.0 in r.value.1 && |r.value.1| == |docs|
    ensures r.Some? ==> forall i :: 0 <= i < |docs| ==> r.value.1[i].id == docs[i].id
    ensures r.Some? ==> forall i :: 0 <= i < |docs| && docs[i].id != id ==> r.value.1[i] == docs[i]
  {
    match IndexOf(docs, id)
    case None => None
    case Some(k) =>
      var updated := docs[k := Doc(id, body)];
      assert updated[k] == Doc(id, body);
      Some((Doc(id, body), updated))
  }

  /** Deleting by id from a collection with unique ids removes exactly the
      document with that id, and the ids stay unique. */
  lemma DeleteRemovesExactly<T>(docs: seq<Doc<T>>, id: Id)
    requires UniqueIds(docs)
    requires HasId(docs, id)
    ensures var (_, rest) := FindByIdAndDelete(docs, id).value;
      && UniqueIds(rest)
      && (forall d :: d in rest <==> d in docs && d.id != id)
      && !HasId(rest, id)
  {
  }

  /** A document created with the next id keeps the collection well-formed. */
  lemma AppendFresh<T>(docs: seq<Doc<T>>, n: nat, body: T)
    requires UniqueIds(docs) && IdsBelow(docs, n)
    ensures UniqueIds(docs + [Doc(n, body)]) && IdsBelow(docs + [Doc(n, body)], n + 1)
  {
  }
}
