/** The database the services talk to, abstracted to four tables keyed by
    id. A collection navigation (`Hotel.Rooms`, `Room.Bookings`) is not
    stored: it is the set of children whose foreign key names the parent.
    A successful `SaveChangesAsync` is one atomic replacement of the store. */
module Database {
  import opened Wrappers
  import opened Values
  import opened Models
  import opened Query

  datatype Store = Store(
    hotels: map<Id, HotelRow>,
    rooms: map<Id, RoomRow>,
    bookings: map<Id, BookingRow>,
    customers: map<Id, CustomerRow>)

  /** The exceptions a service call can end with. */
  datatype Error =
    | NotFound             // NotFoundException, reported as 404
    | ConcurrencyConflict  // a DbUpdateConcurrencyException re-thrown
    | NullReference        // a navigation that was null was dereferenced
    | DuplicateKey         // an insert whose key is already taken
    | NullKey              // an insert whose key is null cannot be tracked

  /** Whether another writer interfered with an update's save. Sequential
      code cannot produce a conflict, so it is an input: `Raced(after)`
      means the save threw a concurrency exception and `after` is the store
      the handler then sees. */
  datatype Concurrency = Alone | Raced(after: Store)

  /** The order in which the database returns each table's rows. */
  datatype StoreOrder = StoreOrder(
    hotels: seq<Id>,
    rooms: seq<Id>,
    bookings: seq<Id>,
    customers: seq<Id>)

  /** Every row is stored under its own `Id`. */
  predicate Keyed(s: Store) {
    && KeyedBy(s.hotels, HotelKey)
    && KeyedBy(s.rooms, RoomKey)
    && KeyedBy(s.bookings, BookingKey)
    && KeyedBy(s.customers, CustomerKey)
  }

  /** `o` lists each table of `s` once. */
  predicate Lists(o: StoreOrder, s: Store) {
    && Enumerates(o.hotels, s.hotels)
    && Enumerates(o.rooms, s.rooms)
    && Enumerates(o.bookings, s.bookings)
    && Enumerates(o.customers, s.customers)
  }

  /** Every foreign key names an existing row. The services do not keep
      this: an update may write an unknown key, and a delete leaves the
      children of the deleted row pointing at it. */
  predicate Linked(s: Store) {
    && (forall k | k in s.rooms && s.rooms[k].hotelId.Some? :: s.rooms[k].hotelId.value in s.hotels)
    && (forall k | k in s.bookings && s.bookings[k].roomId.Some? :: s.bookings[k].roomId.value in s.rooms)
    && (forall k | k in s.bookings && s.bookings[k].customerId.Some? ::
          s.bookings[k].customerId.value in s.customers)
  }

  /** The rows a list of ids resolves to: `table.Where(t => ids.Contains(t.Id))`. */
  function Resolve<T>(ids: seq<Id>, table: map<Id, T>): (found: set<Id>)
    ensures found <= table.Keys
    ensures forall k :: k in found <==> k in table && k in ids
  {
    set k | k in table && k in ids
  }

  /** `Resolve` finds the same rows as the query the services run: the
      ids of the rows that `Where(t => ids.Contains(t.Id))` keeps from an
      enumeration of a keyed table are exactly the resolved keys. */
  lemma ResolveIsWhereContains<T(!new)>(table: map<Id, T>, order: seq<Id>, key: T -> Id, ids: seq<Id>)
    requires Enumerates(order, table) && KeyedBy(table, key)
    ensures forall k :: k in Ids(Filter(Scan(table, order), KeyIn(key, ids)), key) <==> k in Resolve(ids, table)
  {
    FilterScanKeys(table, order, key, KeyIn(key, ids));
  }

  /** The hotel's `Rooms` collection. */
  function RoomsOf(s: Store, hotel: Id): set<Id> {
    set k | k in s.rooms && s.rooms[k].hotelId == Some(hotel)
  }

  /** The room's `Bookings` collection. */
  function BookingsOf(s: Store, room: Id): set<Id> {
    set k | k in s.bookings && s.bookings[k].roomId == Some(room)
  }

  /** Points the `HotelId` of every room in `which` at `hotel`. */
  function SetHotel(rooms: map<Id, RoomRow>, which: set<Id>, hotel: Option<Id>): (result: map<Id, RoomRow>)
    ensures result.Keys == rooms.Keys
    ensures forall k | k in rooms && k in which :: result[k] == rooms[k].(hotelId := hotel)
    ensures forall k | k in rooms && k !in which :: result[k] == rooms[k]
  {
    map k | k in rooms :: if k in which then rooms[k].(hotelId := hotel) else rooms[k]
  }

  /** Points the `RoomId` of every booking in `which` at `room`. */
  function SetRoom(bookings: map<Id, BookingRow>, which: set<Id>, room: Option<Id>): (result: map<Id, BookingRow>)
    ensures result.Keys == bookings.Keys
    ensures forall k | k in bookings && k in which :: result[k] == bookings[k].(roomId := room)
    ensures forall k | k in bookings && k !in which :: result[k] == bookings[k]
  {
    map k | k in bookings :: if k in which then bookings[k].(roomId := room) else bookings[k]
  }

  /** The catch block of every update: `NotFound` when the row no longer
      exists, the concurrency exception itself otherwise. */
  function ConcurrencyError(rowExists: bool): (e: Error)
    ensures e == NotFound <==> !rowExists
    ensures e == ConcurrencyConflict <==> rowExists
  {
    if rowExists then ConcurrencyConflict else NotFound
  }

  /** Pointing rooms at a hotel adds exactly them to its collection. */
  lemma AttachRoomsOf(s: Store, which: set<Id>, hotel: Id)
    requires which <= s.rooms.Keys
    ensures RoomsOf(s.(rooms := SetHotel(s.rooms, which, Some(hotel))), hotel) == RoomsOf(s, hotel) + which
  {
  }

  /** Pointing bookings at a room adds exactly them to its collection. */
  lemma AttachBookingsOf(s: Store, which: set<Id>, room: Id)
    requires which <= s.bookings.Keys
    ensures BookingsOf(s.(bookings := SetRoom(s.bookings, which, Some(room))), room) == BookingsOf(s, room) + which
  {
  }

  /** Inserts a hotel row and points the rooms in `which` at it: the store
      a hotel create saves. */
  function AddHotel(s: Store, row: HotelRow, which: set<Id>): (s': Store)
    requires which <= s.rooms.Keys
    ensures s'.hotels == s.hotels[row.id := row]
    ensures s'.rooms.Keys == s.rooms.Keys
    ensures forall k | k in which :: s'.rooms[k] == s.rooms[k].(hotelId := Some(row.id))
    ensures forall k | k in s.rooms && k !in which :: s'.rooms[k] == s.rooms[k]
    ensures RoomsOf(s', row.id) == RoomsOf(s, row.id) + which
    ensures s'.bookings == s.bookings && s'.customers == s.customers
    ensures Keyed(s) ==> Keyed(s')
    ensures Linked(s) ==> Linked(s')
  {
    AttachRoomsOf(s, which, row.id);
    s.(hotels := s.hotels[row.id := row], rooms := SetHotel(s.rooms, which, Some(row.id)))
  }

  /** Inserts a room row and points the bookings in `which` at it: the
      store a room create saves. The room's own hotel key is kept as given. */
  function AddRoom(s: Store, row: RoomRow, which: set<Id>): (s': Store)
    requires which <= s.bookings.Keys
    ensures s'.rooms == s.rooms[row.id := row]
    ensures s'.bookings.Keys == s.bookings.Keys
    ensures forall k | k in which :: s'.bookings[k] == s.bookings[k].(roomId := Some(row.id))
    ensures forall k | k in s.bookings && k !in which :: s'.bookings[k] == s.bookings[k]
    ensures BookingsOf(s', row.id) == BookingsOf(s, row.id) + which
    ensures s'.hotels == s.hotels && s'.customers == s.customers
    ensures Keyed(s) ==> Keyed(s')
    ensures Linked(s) && (row.hotelId.Some? ==> row.hotelId.value in s.hotels) ==> Linked(s')
  {
    AttachBookingsOf(s.(rooms := s.rooms[row.id := row]), which, row.id);
    s.(rooms := s.rooms[row.id := row], bookings := SetRoom(s.bookings, which, Some(row.id)))
  }

  /** Makes `which` exactly the hotel's rooms: its other rooms are
      detached, the rooms in `which` attached, and no other column
      changes. The store a rooms update saves. */
  function ReplaceRooms(s: Store, hotel: Id, which: set<Id>): (s': Store)
    requires which <= s.rooms.Keys
    ensures s'.rooms.Keys == s.rooms.Keys
    ensures forall k | k in which :: s'.rooms[k] == s.rooms[k].(hotelId := Some(hotel))
    ensures forall k | k in RoomsOf(s, hotel) - which :: s'.rooms[k] == s.rooms[k].(hotelId := None)
    ensures forall k | k in s.rooms && k !in which && k !in RoomsOf(s, hotel) :: s'.rooms[k] == s.rooms[k]
    ensures RoomsOf(s', hotel) == which
    ensures s'.hotels == s.hotels && s'.bookings == s.bookings && s'.customers == s.customers
    ensures Keyed(s) ==> Keyed(s')
    ensures Linked(s) && hotel in s.hotels ==> Linked(s')
  {
    var detached := SetHotel(s.rooms, RoomsOf(s, hotel) - which, None);
    s.(rooms := SetHotel(detached, which, Some(hotel)))
  }

  /** Makes `which` exactly the room's bookings: its other bookings are
      detached, the bookings in `which` attached, and no other column
      changes. The store a bookings update saves. */
  function ReplaceBookings(s: Store, room: Id, which: set<Id>): (s': Store)
    requires which <= s.bookings.Keys
    ensures s'.bookings.Keys == s.bookings.Keys
    ensures forall k | k in which :: s'.bookings[k] == s.bookings[k].(roomId := Some(room))
    ensures forall k | k in BookingsOf(s, room) - which :: s'.bookings[k] == s.bookings[k].(roomId := None)
    ensures forall k | k in s.bookings && k !in which && k !in BookingsOf(s, room) ::
      s'.bookings[k] == s.bookings[k]
    ensures BookingsOf(s', room) == which
    ensures s'.hotels == s.hotels && s'.rooms == s.rooms && s'.customers == s.customers
    ensures Keyed(s) ==> Keyed(s')
    ensures Linked(s) && room in s.rooms ==> Linked(s')
  {
    var detached := s.(bookings := SetRoom(s.bookings, BookingsOf(s, room) - which, None));
    LinkedAfterSetRoom(s, BookingsOf(s, room) - which, None);
    LinkedAfterSetRoom(detached, which, Some(room));
    detached.(bookings := SetRoom(detached.bookings, which, Some(room)))
  }

  /** Pointing bookings at an existing room, or at none, keeps every key
      resolvable. */
  lemma LinkedAfterSetRoom(s: Store, which: set<Id>, room: Option<Id>)
    ensures Linked(s) && (room.Some? ==> room.value in s.rooms) ==>
      Linked(s.(bookings := SetRoom(s.bookings, which, room)))
  {
  }

  /** Adding a booking whose keys resolve keeps every key resolvable. */
  lemma LinkedAfterNewBooking(s: Store, row: BookingRow)
    requires row.roomId.Some? ==> row.roomId.value in s.rooms
    requires row.customerId.Some? ==> row.customerId.value in s.customers
    ensures Linked(s) ==> Linked(s.(bookings := s.bookings[row.id := row]))
  {
  }
}
