/** `RoomsServiceBase`: create, read, update and delete rooms, connect,
    disconnect, list and replace a room's bookings, and read a room's
    hotel. Every operation is a function from the store to a result; a
    failing operation leaves the store as it was. */
module RoomsService {
  import opened Wrappers
  import opened Values
  import opened Models
  import opened Dtos
  import opened Query
  import opened Database
  import RoomsExtensions
  import HotelsExtensions
  import BookingsExtensions

  /** A room's `Bookings` navigation as `Include` loads it: the bookings
      whose `RoomId` names it, in the database's order. */
  function LoadedBookings(s: Store, o: StoreOrder, room: Id): seq<BookingRow> {
    Filter(Scan(s.bookings, o.bookings), InRoom(room))
  }

  /** The DTO of a room read together with its bookings. */
  function RoomView(s: Store, o: StoreOrder, row: RoomRow): RoomDto {
    RoomsExtensions.ToDto(RoomModel(row, Some(LoadedBookings(s, o, row.id))))
  }

  /** The loaded `Bookings` navigation lists exactly the room's bookings. */
  lemma LoadedBookingsAreBookingsOf(s: Store, o: StoreOrder, room: Id)
    requires Lists(o, s) && Keyed(s)
    ensures forall k :: k in Ids(LoadedBookings(s, o, room), BookingKey) <==> k in BookingsOf(s, room)
  {
    FilterScanKeys(s.bookings, o.bookings, BookingKey, InRoom(room));
  }

  /** The bookings a create input names that exist. */
  function RequestedBookings(s: Store, input: RoomCreateInput): set<Id> {
    if input.bookings.Some? then Resolve(Ids(input.bookings.value, BookingDtoKey), s.bookings) else {}
  }

  /** The hotel key a new room gets: the named hotel when it exists, and
      null when the input names none or an unknown one. */
  function RequestedHotel(s: Store, input: RoomCreateInput): (hotel: Option<Id>)
    ensures hotel.Some? <==> input.hotel.Some? && input.hotel.value.id in s.hotels
    ensures hotel.Some? ==> hotel.value == input.hotel.value.id
  {
    if input.hotel.Some? && input.hotel.value.id in s.hotels then Some(input.hotel.value.id) else None
  }

  /** `RequestedHotel` is the key of the hotel that
      `Hotels.Where(hotel => createDto.Hotel.Id == hotel.Id).FirstOrDefaultAsync()`
      loads on a keyed store, and null when that query finds nothing or the
      input names no hotel. */
  lemma RequestedHotelIsFirstMatch(s: Store, o: StoreOrder, input: RoomCreateInput)
    requires Lists(o, s) && Keyed(s)
    ensures input.hotel.None? ==> RequestedHotel(s, input).None?
    ensures input.hotel.Some? ==>
      var first := FirstOrNone(Filter(Scan(s.hotels, o.hotels), HasKey(HotelKey, input.hotel.value.id)));
      RequestedHotel(s, input) == if first.Some? then Some(HotelKey(first.value)) else None
  {
    if input.hotel.Some? {
      FirstByKey(s.hotels, o.hotels, HotelKey, input.hotel.value.id);
    }
  }

  /** Without dangling keys, a room id that is not stored has no bookings. */
  lemma UnknownRoomHasNoBookings(s: Store, room: Id)
    requires Linked(s) && room !in s.rooms
    ensures BookingsOf(s, room) == {}
  {
  }

  /** `CreateRoom`: inserts a room under the input's `Id`. The key is a
      string with no value generation, so an input without one cannot be
      tracked and the insert fails. The room's hotel is the named hotel if
      it exists; the listed bookings that exist are attached to the new
      room, with no other column changed; unknown ids are dropped without
      error. Returns the new store and the DTO of the room as read back. */
  function CreateRoom(s: Store, o: StoreOrder, input: RoomCreateInput)
    : (r: Result<(Store, RoomDto), Error>)
    ensures r.Err? <==> input.id.None? || input.id.value in s.rooms
    ensures r.Err? ==> r.error == (if input.id.None? then NullKey else DuplicateKey)
    ensures r.Ok? ==>
      var id := input.id.value;
      var s' := r.value.0;
      var dto := r.value.1;
      && id in s'.rooms && s'.rooms - {id} == s.rooms
      && s'.rooms[id].id == id
      && s'.rooms[id].hotelId == RequestedHotel(s, input)
      && s'.rooms[id].createdAt == input.createdAt && s'.rooms[id].updatedAt == input.updatedAt
      && s'.rooms[id].price == input.price && s'.rooms[id].roomNumber == input.roomNumber
      && s'.rooms[id].typeField == input.typeField
      && BookingsOf(s', id) == BookingsOf(s, id) + RequestedBookings(s, input)
      && s'.bookings.Keys == s.bookings.Keys
      && (forall k | k in RequestedBookings(s, input) :: s'.bookings[k] == s.bookings[k].(roomId := Some(id)))
      && (forall k | k in s.bookings && k !in RequestedBookings(s, input) :: s'.bookings[k] == s.bookings[k])
      && s'.hotels == s.hotels && s'.customers == s.customers
      && (Keyed(s) ==> Keyed(s'))
      && (Linked(s) ==> Linked(s'))
      && dto.id == id && dto.hotel == RequestedHotel(s, input)
      && dto.price == input.price && dto.roomNumber == input.roomNumber
      && dto.typeField == input.typeField
      && dto.createdAt == input.createdAt && dto.updatedAt == input.updatedAt
      && dto.bookings.Some?
  {
    if input.id.None? then Err(NullKey)
    else if input.id.value in s.rooms then Err(DuplicateKey)
    else
      var row := RoomRow(
        createdAt := input.createdAt,
        hotelId := RequestedHotel(s, input),
        id := input.id.value,
        price := input.price,
        roomNumber := input.roomNumber,
        typeField := input.typeField,
        updatedAt := input.updatedAt);
      var children :=
        if input.bookings.Some? then
          Filter(Scan(s.bookings, o.bookings), KeyIn(BookingKey, Ids(input.bookings.value, BookingDtoKey)))
        else [];
      var s' := AddRoom(s, row, RequestedBookings(s, input));
      Ok((s', RoomsExtensions.ToDto(RoomModel(row, Some(children)))))
  }

  /** On a store without dangling keys, a new room's bookings are exactly
      the listed bookings that exist, and the returned DTO lists those
      bookings. */
  lemma CreateRoomBookings(s: Store, o: StoreOrder, input: RoomCreateInput)
    requires Lists(o, s) && Keyed(s) && Linked(s)
    requires CreateRoom(s, o, input).Ok?
    ensures var (s', dto) := CreateRoom(s, o, input).value;
      && BookingsOf(s', input.id.value) == RequestedBookings(s, input)
      && forall k :: k in dto.bookings.value <==> k in RequestedBookings(s, input)
  {
    var dto := CreateRoom(s, o, input).value.1;
    UnknownRoomHasNoBookings(s, input.id.value);
    if input.bookings.Some? {
      var ids := Ids(input.bookings.value, BookingDtoKey);
      var children := Filter(Scan(s.bookings, o.bookings), KeyIn(BookingKey, ids));
      FilterScanKeys(s.bookings, o.bookings, BookingKey, KeyIn(BookingKey, ids));
      assert dto.bookings.value == Ids(children, BookingKey);
    } else {
      assert dto.bookings.value == [];
    }
  }

  /** `DeleteRoom`: removes the room, or fails `NotFound`. Bookings keep
      their `RoomId`: the database's referential action is not modelled. */
  function DeleteRoom(s: Store, id: Id): (r: Result<Store, Error>)
    ensures r.Err? <==> id !in s.rooms
    ensures r.Err? ==> r.error == NotFound
    ensures r.Ok? ==> id !in r.value.rooms && |r.value.rooms| == |s.rooms| - 1
    ensures r.Ok? ==> forall k :: k != id ==> (k in r.value.rooms <==> k in s.rooms)
    ensures r.Ok? ==> forall k | k in r.value.rooms :: r.value.rooms[k] == s.rooms[k]
    ensures r.Ok? ==> r.value.hotels == s.hotels && r.value.bookings == s.bookings
    ensures r.Ok? ==> r.value.customers == s.customers
    ensures r.Ok? && Keyed(s) ==> Keyed(r.value)
  {
    if id !in s.rooms then Err(NotFound)
    else
      var rooms := s.rooms - {id};
      assert rooms.Keys == s.rooms.Keys - {id};
      Ok(s.(rooms := rooms))
  }

  /** Creating a room and deleting it again restores the room table. */
  lemma DeleteUndoesCreate(s: Store, o: StoreOrder, input: RoomCreateInput)
    requires CreateRoom(s, o, input).Ok?
    ensures var s' := CreateRoom(s, o, input).value.0;
      var d := DeleteRoom(s', input.id.value);
      d.Ok? && d.value.rooms == s.rooms
  {
  }

  /** Deleting a room that still has bookings leaves them pointing at a
      room that no longer exists. */
  lemma DeleteRoomLeavesDanglingBookings(s: Store, id: Id, booking: Id)
    requires id in s.rooms && booking in BookingsOf(s, id)
    ensures DeleteRoom(s, id).Ok? && !Linked(DeleteRoom(s, id).value)
  {
    var s' := DeleteRoom(s, id).value;
    assert s'.bookings[booking].roomId.value !in s'.rooms;
  }

  /** The DTOs of a list of rooms, one per row and with the row's key. */
  function RoomViews(s: Store, o: StoreOrder, rows: seq<RoomRow>): (dtos: seq<RoomDto>)
    ensures |dtos| == |rows|
    ensures forall i :: 0 <= i < |rows| ==> dtos[i] == RoomView(s, o, rows[i])
    ensures Ids(dtos, RoomDtoKey) == Ids(rows, RoomKey)
  {
    var dtos := seq(|rows|, i requires 0 <= i < |rows| => RoomView(s, o, rows[i]));
    assert forall i :: 0 <= i < |rows| ==> RoomDtoKey(dtos[i]) == RoomKey(rows[i]);
    dtos
  }

  /** `Rooms`: the find-many list, each room read with its bookings.
      Unpaged, on a keyed store, it lists every room the filter accepts. */
  function Rooms(s: Store, o: StoreOrder, args: FindManyArgs<RoomRow>, p: Paging<RoomRow>)
    : (dtos: seq<RoomDto>)
    requires Selecting(p)
    ensures forall i :: 0 <= i < |dtos| ==>
      exists row :: row in s.rooms.Values && args.where(row) && dtos[i] == RoomView(s, o, row)
    ensures Unpaged(args) && Lists(o, s) && Keyed(s) ==>
      forall k :: k in Ids(dtos, RoomDtoKey) <==> k in s.rooms && args.where(s.rooms[k])
  {
    var rows := FindMany(Scan(s.rooms, o.rooms), args, p);
    assert forall i :: 0 <= i < |rows| ==> rows[i] in rows;
    assert forall i :: 0 <= i < |rows| ==> rows[i] in s.rooms.Values && args.where(rows[i]);
    FindManyKeys(s.rooms, o.rooms, RoomKey, args, p);
    RoomViews(s, o, rows)
  }

  /** `RoomsMeta`: the number of rooms the where-filter accepts; skip,
      take and sort play no part. */
  function RoomsMeta(s: Store, args: FindManyArgs<RoomRow>): (count: nat)
    ensures count <= |s.rooms|
  {
    CountAtMost(s.rooms, args.where);
    Count(s.rooms, args.where)
  }

  /** The meta count depends on the filter alone. */
  lemma RoomsMetaIgnoresPaging(s: Store, where: RoomRow -> bool, skip: Option<int>, take: Option<int>,
                               sortBy: Option<SortBy>)
    ensures RoomsMeta(s, FindManyArgs(where, skip, take, sortBy)) == RoomsMeta(s, FindManyArgs(where, None, None, None))
  {
  }

  /** The meta count is the length of the unpaged list for the same filter. */
  lemma RoomsMetaCountsList(s: Store, o: StoreOrder, args: FindManyArgs<RoomRow>, p: Paging<RoomRow>)
    requires Selecting(p) && Lists(o, s) && Unpaged(args)
    ensures RoomsMeta(s, args) == |Rooms(s, o, args, p)|
  {
    CountIsFilterLength(s.rooms, o.rooms, args.where);
  }

  /** `Room`: the first room of the list filtered by `Id`, or `NotFound`. */
  function Room(s: Store, o: StoreOrder, p: Paging<RoomRow>, id: Id): (r: Result<RoomDto, Error>)
    requires Selecting(p)
    ensures r.Err? ==> r.error == NotFound
    ensures r.Ok? ==> r.value.id == id && r.value.bookings.Some?
  {
    var found := Rooms(s, o, ById(RoomKey, id), p);
    if |found| == 0 then Err(NotFound) else Ok(found[0])
  }

  /** On a keyed store, `Room` finds the room stored under `id`, with its
      scalars, its hotel key and exactly its bookings, and fails `NotFound`
      otherwise. */
  lemma RoomFinds(s: Store, o: StoreOrder, p: Paging<RoomRow>, id: Id)
    requires Selecting(p) && Lists(o, s) && Keyed(s)
    ensures var r := Room(s, o, p, id);
      && (r.Ok? <==> id in s.rooms)
      && (r.Ok? ==>
            && r.value == RoomView(s, o, s.rooms[id])
            && r.value.hotel == s.rooms[id].hotelId
            && r.value.price == s.rooms[id].price && r.value.roomNumber == s.rooms[id].roomNumber
            && r.value.typeField == s.rooms[id].typeField
            && r.value.createdAt == s.rooms[id].createdAt && r.value.updatedAt == s.rooms[id].updatedAt
            && forall k :: k in r.value.bookings.value <==> k in BookingsOf(s, id))
  {
    FilterByKey(s.rooms, o.rooms, RoomKey, id);
    LoadedBookingsAreBookingsOf(s, o, id);
  }

  /** The bookings an update input lists that exist. */
  function UpdatedBookings(s: Store, input: RoomUpdateInput): set<Id> {
    if input.bookings.Some? then Resolve(input.bookings.value, s.bookings) else {}
  }

  /** `UpdateRoom`: the entity is marked wholly modified, so the stored row
      becomes `ToModel(input, id)`; omitted nullable fields, the hotel key
      among them, are written as null and omitted dates as
      `DateTime.MinValue`. Listed bookings that exist are attached; the
      room's other bookings stay attached, since its old collection is
      never loaded. A save that hits no row, or a concurrency exception,
      ends in `NotFound` exactly when the room no longer exists, and
      re-throws otherwise. */
  function UpdateRoom(s: Store, id: Id, input: RoomUpdateInput, c: Concurrency): (r: Result<Store, Error>)
    ensures c.Alone? ==> (r.Ok? <==> id in s.rooms)
    ensures c.Raced? ==> r.Err?
    ensures r.Err? ==> r.error == NotFound || r.error == ConcurrencyConflict
    ensures r.Err? ==> (r.error == NotFound <==> id !in (if c.Raced? then c.after else s).rooms)
    ensures r.Ok? ==>
      && r.value.rooms.Keys == s.rooms.Keys
      && r.value.rooms[id] == RoomsExtensions.ToModel(input, id).row
      && (forall k | k in s.rooms && k != id :: r.value.rooms[k] == s.rooms[k])
      && BookingsOf(r.value, id) == BookingsOf(s, id) + UpdatedBookings(s, input)
      && r.value.bookings.Keys == s.bookings.Keys
      && (forall k | k in UpdatedBookings(s, input) :: r.value.bookings[k] == s.bookings[k].(roomId := Some(id)))
      && (forall k | k in s.bookings && k !in UpdatedBookings(s, input) :: r.value.bookings[k] == s.bookings[k])
      && r.value.hotels == s.hotels && r.value.customers == s.customers
      && (Keyed(s) ==> Keyed(r.value))
  {
    var model := RoomsExtensions.ToModel(input, id);
    match c
    case Raced(after) => Err(ConcurrencyError(id in after.rooms))
    case Alone =>
      if id !in s.rooms then Err(ConcurrencyError(false))
      else
        AttachBookingsOf(s, UpdatedBookings(s, input), id);
        Ok(s.(rooms := s.rooms[id := model.row],
              bookings := SetRoom(s.bookings, UpdatedBookings(s, input), Some(id))))
  }

  /** An update is not a partial one: an input that leaves the hotel null
      detaches the room from its hotel, and a null price clears the price. */
  lemma UpdateRoomClearsOmittedFields(s: Store, id: Id, input: RoomUpdateInput)
    requires id in s.rooms && input.hotel.None? && input.price.None?
    ensures var r := UpdateRoom(s, id, input, Alone);
      && r.Ok? && r.value.rooms[id].hotelId.None? && r.value.rooms[id].price.None?
      && forall h :: id !in RoomsOf(r.value, h)
  {
  }

  /** `ConnectBookings`: fails `NotFound` when the room is missing or none
      of the ids names a booking; otherwise attaches each found booking
      that is not attached yet. */
  function ConnectBookings(s: Store, id: Id, ids: seq<Id>): (r: Result<Store, Error>)
    ensures r.Err? <==> id !in s.rooms || Resolve(ids, s.bookings) == {}
    ensures r.Err? ==> r.error == NotFound
    ensures r.Ok? ==>
      && BookingsOf(r.value, id) == BookingsOf(s, id) + Resolve(ids, s.bookings)
      && r.value.bookings.Keys == s.bookings.Keys
      && (forall k | k in s.bookings && k !in Resolve(ids, s.bookings) :: r.value.bookings[k] == s.bookings[k])
      && (forall k | k in Resolve(ids, s.bookings) :: r.value.bookings[k] == s.bookings[k].(roomId := Some(id)))
      && r.value.hotels == s.hotels && r.value.rooms == s.rooms
      && r.value.customers == s.customers
      && (Keyed(s) ==> Keyed(r.value))
      && (Linked(s) ==> Linked(r.value))
  {
    if id !in s.rooms then Err(NotFound)
    else
      var children := Resolve(ids, s.bookings);
      if children == {} then Err(NotFound)
      else
        var toConnect := children - BookingsOf(s, id);
        Ok(s.(bookings := SetRoom(s.bookings, toConnect, Some(id))))
  }

  /** Connecting the same bookings a second time changes nothing. */
  lemma ConnectBookingsIdempotent(s: Store, id: Id, ids: seq<Id>)
    requires ConnectBookings(s, id, ids).Ok?
    ensures var once := ConnectBookings(s, id, ids).value;
      ConnectBookings(once, id, ids) == Ok(once)
  {
    var once := ConnectBookings(s, id, ids).value;
    assert Resolve(ids, once.bookings) == Resolve(ids, s.bookings);
    assert Resolve(ids, once.bookings) - BookingsOf(once, id) == {};
    assert SetRoom(once.bookings, {}, Some(id)) == once.bookings;
  }

  /** `DisconnectBookings`: fails `NotFound` only when the room is missing;
      detaches each found booking that was attached to it and ignores the
      other ids. */
  function DisconnectBookings(s: Store, id: Id, ids: seq<Id>): (r: Result<Store, Error>)
    ensures r.Err? <==> id !in s.rooms
    ensures r.Err? ==> r.error == NotFound
    ensures r.Ok? ==>
      && BookingsOf(r.value, id) == BookingsOf(s, id) - Resolve(ids, s.bookings)
      && r.value.bookings.Keys == s.bookings.Keys
      && (forall k | k in s.bookings && (k !in Resolve(ids, s.bookings) || k !in BookingsOf(s, id)) ::
            r.value.bookings[k] == s.bookings[k])
      && (forall k | k in Resolve(ids, s.bookings) * BookingsOf(s, id) ::
            r.value.bookings[k] == s.bookings[k].(roomId := None))
      && r.value.hotels == s.hotels && r.value.rooms == s.rooms
      && r.value.customers == s.customers
      && (Keyed(s) ==> Keyed(r.value))
      && (Linked(s) ==> Linked(r.value))
  {
    if id !in s.rooms then Err(NotFound)
    else
      var children := Resolve(ids, s.bookings);
      Ok(s.(bookings := SetRoom(s.bookings, children * BookingsOf(s, id), None)))
  }

  /** Disconnecting bookings none of which is attached leaves the store as
      it was. */
  lemma DisconnectUnattachedIsNoop(s: Store, id: Id, ids: seq<Id>)
    requires id in s.rooms && Resolve(ids, s.bookings) * BookingsOf(s, id) == {}
    ensures DisconnectBookings(s, id, ids) == Ok(s)
  {
    assert SetRoom(s.bookings, {}, None) == s.bookings;
  }

  /** Connecting bookings and then disconnecting the same ids leaves the
      room with the bookings it had that were not listed. */
  lemma DisconnectUndoesConnect(s: Store, id: Id, ids: seq<Id>)
    requires ConnectBookings(s, id, ids).Ok?
    ensures var once := ConnectBookings(s, id, ids).value;
      var back := DisconnectBookings(once, id, ids);
      back.Ok? && BookingsOf(back.value, id) == BookingsOf(s, id) - Resolve(ids, s.bookings)
  {
    var once := ConnectBookings(s, id, ids).value;
    assert Resolve(ids, once.bookings) == Resolve(ids, s.bookings);
  }

  /** The bookings a where-filter keeps from a room's loaded bookings
      are, on a keyed store, exactly the room's bookings the filter
      accepts. */
  lemma LoadedBookingsWhere(s: Store, o: StoreOrder, room: Id, where: BookingRow -> bool)
    ensures Lists(o, s) && Keyed(s) ==>
      forall k :: k in Ids(Filter(LoadedBookings(s, o, room), where), BookingKey) <==>
        k in BookingsOf(s, room) && where(s.bookings[k])
  {
    if Lists(o, s) && Keyed(s) {
      FilterFilter(Scan(s.bookings, o.bookings), InRoom(room), where);
      FilterScanKeys(s.bookings, o.bookings, BookingKey, Both(InRoom(room), where));
    }
  }

  /** `FindBookings`: the bookings whose `RoomId` is `room`, filtered and
      paged. No existence check is made. Unpaged, on a keyed store, it
      lists every booking of the room the filter accepts. */
  function FindBookings(s: Store, o: StoreOrder, room: Id, args: FindManyArgs<BookingRow>,
                        p: Paging<BookingRow>): (dtos: seq<BookingDto>)
    requires Selecting(p)
    ensures forall i :: 0 <= i < |dtos| ==> dtos[i].room == Some(room)
    ensures Keyed(s) ==> forall i :: 0 <= i < |dtos| ==>
      dtos[i].id in BookingsOf(s, room) && args.where(s.bookings[dtos[i].id])
    ensures Unpaged(args) && Lists(o, s) && Keyed(s) ==>
      forall k :: k in Ids(dtos, BookingDtoKey) <==> k in BookingsOf(s, room) && args.where(s.bookings[k])
  {
    FoundBookings(s, o, room, args, p);
    BookingsExtensions.ToDtos(FindMany(LoadedBookings(s, o, room), args, p))
  }

  /** The rows `FindBookings` reads: bookings of the room the filter
      accepts, all of them when nothing is paged. */
  lemma FoundBookings(s: Store, o: StoreOrder, room: Id, args: FindManyArgs<BookingRow>, p: Paging<BookingRow>)
    requires Selecting(p)
    ensures var rows := FindMany(LoadedBookings(s, o, room), args, p);
      && (forall i :: 0 <= i < |rows| ==> rows[i].roomId == Some(room))
      && (Keyed(s) ==> forall i :: 0 <= i < |rows| ==>
            rows[i].id in BookingsOf(s, room) && args.where(s.bookings[rows[i].id]))
      && (Unpaged(args) && Lists(o, s) && Keyed(s) ==>
            forall k :: k in Ids(rows, BookingKey) <==> k in BookingsOf(s, room) && args.where(s.bookings[k]))
  {
    var rows := FindMany(LoadedBookings(s, o, room), args, p);
    assert forall i :: 0 <= i < |rows| ==> rows[i] in rows;
    assert Keyed(s) ==> forall i :: 0 <= i < |rows| ==> StoredUnderKey(s.bookings, BookingKey, rows[i]);
    LoadedBookingsWhere(s, o, room, args.where);
  }

  /** On a store without dangling keys, listing the bookings of an unknown
      room yields nothing rather than `NotFound`. */
  lemma FindBookingsOfUnknownRoom(s: Store, o: StoreOrder, room: Id, args: FindManyArgs<BookingRow>,
                                  p: Paging<BookingRow>)
    requires Selecting(p) && Linked(s) && room !in s.rooms
    ensures FindBookings(s, o, room, args, p) == []
  {
    var rows := Scan(s.bookings, o.bookings);
    assert forall i :: 0 <= i < |rows| ==> rows[i] in s.bookings.Values;
    FilterNone(rows, InRoom(room));
  }

  /** `UpdateBookings`: fails `NotFound` when the room is missing or the
      ids resolve to no booking, an empty list included; otherwise the
      room's bookings become exactly the found bookings. */
  function UpdateBookings(s: Store, id: Id, ids: seq<Id>): (r: Result<Store, Error>)
    ensures r.Err? <==> id !in s.rooms || Resolve(ids, s.bookings) == {}
    ensures r.Err? ==> r.error == NotFound
    ensures r.Ok? ==>
      && BookingsOf(r.value, id) == Resolve(ids, s.bookings)
      && r.value.bookings.Keys == s.bookings.Keys
      && (forall k | k in s.bookings && k !in Resolve(ids, s.bookings) && k !in BookingsOf(s, id) ::
            r.value.bookings[k] == s.bookings[k])
      && (forall k | k in Resolve(ids, s.bookings) :: r.value.bookings[k] == s.bookings[k].(roomId := Some(id)))
      && (forall k | k in BookingsOf(s, id) - Resolve(ids, s.bookings) ::
            r.value.bookings[k] == s.bookings[k].(roomId := None))
      && r.value.hotels == s.hotels && r.value.rooms == s.rooms
      && r.value.customers == s.customers
      && (Keyed(s) ==> Keyed(r.value))
      && (Linked(s) ==> Linked(r.value))
  {
    if id !in s.rooms then Err(NotFound)
    else
      var children := Resolve(ids, s.bookings);
      if children == {} then Err(NotFound)
      else
        Ok(ReplaceBookings(s, id, children))
  }

  /** Replacing a room's bookings with an empty list fails rather than
      clearing them. */
  lemma UpdateBookingsWithNoIdsFails(s: Store, id: Id)
    ensures UpdateBookings(s, id, []) == Err(NotFound)
  {
  }

  /** `GetHotel`: the hotel of the room, read through the `Hotel`
      navigation. `NotFound` when the room is missing; a null navigation
      (no hotel key, or a key naming no hotel) is dereferenced and throws.
      The hotel's `Rooms` collection holds only the rows the query
      tracked, which is the one room. */
  function GetHotel(s: Store, id: Id): (r: Result<HotelDto, Error>)
    ensures r.Err? <==> id !in s.rooms || s.rooms[id].hotelId.None? || s.rooms[id].hotelId.value !in s.hotels
    ensures r.Err? ==> (r.error == NotFound <==> id !in s.rooms)
    ensures r.Err? ==> r.error == NotFound || r.error == NullReference
    ensures r.Ok? ==>
      var hotel := s.hotels[s.rooms[id].hotelId.value];
      && r.value.id == hotel.id
      && r.value.name == hotel.name && r.value.location == hotel.location && r.value.rating == hotel.rating
      && r.value.createdAt == hotel.createdAt && r.value.updatedAt == hotel.updatedAt
      && r.value.rooms == Some([s.rooms[id].id])
  {
    if id !in s.rooms then Err(NotFound)
    else
      var room := s.rooms[id];
      if room.hotelId.None? || room.hotelId.value !in s.hotels then Err(NullReference)
      else
        var dto := HotelsExtensions.ToDto(HotelModel(s.hotels[room.hotelId.value], Some([room])));
        assert dto.rooms.value == [room.id];
        Ok(dto)
  }

  /** On a keyed store, `GetHotel` inverts the `Rooms` collection: it
      returns hotel `h` exactly when the room is one of `h`'s rooms and `h`
      exists. */
  lemma GetHotelInvertsRoomsOf(s: Store, id: Id, h: Id)
    requires Keyed(s)
    ensures var r := GetHotel(s, id);
      r.Ok? && r.value.id == h <==> id in RoomsOf(s, h) && h in s.hotels
  {
  }
}
