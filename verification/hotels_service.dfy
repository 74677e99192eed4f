/** `HotelsServiceBase`: create, read, update and delete hotels, and
    connect, disconnect, list and replace a hotel's rooms. Every operation
    is a function from the store to a result; a failing operation leaves
    the store as it was. */
module HotelsService {
  import opened Wrappers
  import opened Values
  import opened Models
  import opened Dtos
  import opened Query
  import opened Database
  import HotelsExtensions
  import RoomsExtensions

  /** A hotel's `Rooms` navigation as `Include` loads it: the rooms whose
      `HotelId` names it, in the database's order. */
  function LoadedRooms(s: Store, o: StoreOrder, hotel: Id): seq<RoomRow> {
    Filter(Scan(s.rooms, o.rooms), InHotel(hotel))
  }

  /** The DTO of a hotel read together with its rooms. */
  function HotelView(s: Store, o: StoreOrder, row: HotelRow): HotelDto {
    HotelsExtensions.ToDto(HotelModel(row, Some(LoadedRooms(s, o, row.id))))
  }

  /** The loaded `Rooms` navigation lists exactly the hotel's rooms. */
  lemma LoadedRoomsAreRoomsOf(s: Store, o: StoreOrder, hotel: Id)
    requires Lists(o, s) && Keyed(s)
    ensures forall k :: k in Ids(LoadedRooms(s, o, hotel), RoomKey) <==> k in RoomsOf(s, hotel)
  {
    FilterScanKeys(s.rooms, o.rooms, RoomKey, InHotel(hotel));
  }

  /** The rooms a create input names that exist. */
  function RequestedRooms(s: Store, input: HotelCreateInput): set<Id> {
    if input.rooms.Some? then Resolve(Ids(input.rooms.value, RoomDtoKey), s.rooms) else {}
  }

  /** Without dangling keys, a hotel id that is not stored has no rooms. */
  lemma UnknownHotelHasNoRooms(s: Store, hotel: Id)
    requires Linked(s) && hotel !in s.hotels
    ensures RoomsOf(s, hotel) == {}
  {
  }

  /** `CreateHotel`: inserts a hotel under the input's `Id`. The key is a
      string with no value generation, so an input without one cannot be
      tracked and the insert fails. The listed rooms that exist are
      attached to the new hotel, with no other column changed; unknown ids
      are dropped without error. Returns the new store and the DTO of the
      hotel as read back. */
  function CreateHotel(s: Store, o: StoreOrder, input: HotelCreateInput)
    : (r: Result<(Store, HotelDto), Error>)
    ensures r.Err? <==> input.id.None? || input.id.value in s.hotels
    ensures r.Err? ==> r.error == (if input.id.None? then NullKey else DuplicateKey)
    ensures r.Ok? ==>
      var id := input.id.value;
      var s' := r.value.0;
      var dto := r.value.1;
      && id in s'.hotels && s'.hotels - {id} == s.hotels
      && s'.hotels[id].id == id
      && s'.hotels[id].createdAt == input.createdAt && s'.hotels[id].updatedAt == input.updatedAt
      && s'.hotels[id].location == input.location && s'.hotels[id].name == input.name
      && s'.hotels[id].rating == input.rating
      && RoomsOf(s', id) == RoomsOf(s, id) + RequestedRooms(s, input)
      && s'.rooms.Keys == s.rooms.Keys
      && (forall k | k in RequestedRooms(s, input) :: s'.rooms[k] == s.rooms[k].(hotelId := Some(id)))
      && (forall k | k in s.rooms && k !in RequestedRooms(s, input) :: s'.rooms[k] == s.rooms[k])
      && s'.bookings == s.bookings && s'.customers == s.customers
      && (Keyed(s) ==> Keyed(s'))
      && (Linked(s) ==> Linked(s'))
      && dto.id == id && dto.name == input.name && dto.location == input.location
      && dto.rating == input.rating
      && dto.createdAt == input.createdAt && dto.updatedAt == input.updatedAt
      && dto.rooms.Some?
  {
    if input.id.None? then Err(NullKey)
    else if input.id.value in s.hotels then Err(DuplicateKey)
    else
      var row := HotelRow(
        createdAt := input.createdAt,
        id := input.id.value,
        location := input.location,
        name := input.name,
        rating := input.rating,
        updatedAt := input.updatedAt);
      var children :=
        if input.rooms.Some? then Filter(Scan(s.rooms, o.rooms), KeyIn(RoomKey, Ids(input.rooms.value, RoomDtoKey)))
        else [];
      var s' := AddHotel(s, row, RequestedRooms(s, input));
      Ok((s', HotelsExtensions.ToDto(HotelModel(row, Some(children)))))
  }

  /** On a store without dangling keys, a new hotel's rooms are exactly the
      listed rooms that exist, and the returned DTO lists those rooms. */
  lemma CreateHotelRooms(s: Store, o: StoreOrder, input: HotelCreateInput)
    requires Lists(o, s) && Keyed(s) && Linked(s)
    requires CreateHotel(s, o, input).Ok?
    ensures var (s', dto) := CreateHotel(s, o, input).value;
      && RoomsOf(s', input.id.value) == RequestedRooms(s, input)
      && forall k :: k in dto.rooms.value <==> k in RequestedRooms(s, input)
  {
    var dto := CreateHotel(s, o, input).value.1;
    UnknownHotelHasNoRooms(s, input.id.value);
    if input.rooms.Some? {
      var ids := Ids(input.rooms.value, RoomDtoKey);
      var children := Filter(Scan(s.rooms, o.rooms), KeyIn(RoomKey, ids));
      FilterScanKeys(s.rooms, o.rooms, RoomKey, KeyIn(RoomKey, ids));
      assert dto.rooms.value == Ids(children, RoomKey);
    } else {
      assert dto.rooms.value == [];
    }
  }

  /** `DeleteHotel`: removes the hotel, or fails `NotFound`. Rooms keep
      their `HotelId`: the database's referential action is not modelled. */
  function DeleteHotel(s: Store, id: Id): (r: Result<Store, Error>)
    ensures r.Err? <==> id !in s.hotels
    ensures r.Err? ==> r.error == NotFound
    ensures r.Ok? ==> id !in r.value.hotels && |r.value.hotels| == |s.hotels| - 1
    ensures r.Ok? ==> forall k :: k != id ==> (k in r.value.hotels <==> k in s.hotels)
    ensures r.Ok? ==> forall k | k in r.value.hotels :: r.value.hotels[k] == s.hotels[k]
    ensures r.Ok? ==> r.value.rooms == s.rooms && r.value.bookings == s.bookings
    ensures r.Ok? ==> r.value.customers == s.customers
    ensures r.Ok? && Keyed(s) ==> Keyed(r.value)
  {
    if id !in s.hotels then Err(NotFound)
    else
      var hotels := s.hotels - {id};
      assert hotels.Keys == s.hotels.Keys - {id};
      Ok(s.(hotels := hotels))
  }

  /** Creating a hotel and deleting it again restores the hotel table. */
  lemma DeleteUndoesCreate(s: Store, o: StoreOrder, input: HotelCreateInput)
    requires CreateHotel(s, o, input).Ok?
    ensures var s' := CreateHotel(s, o, input).value.0;
      var d := DeleteHotel(s', input.id.value);
      d.Ok? && d.value.hotels == s.hotels
  {
  }

  /** Deleting a hotel that still has rooms leaves them pointing at a
      hotel that no longer exists. */
  lemma DeleteHotelLeavesDanglingRooms(s: Store, id: Id, room: Id)
    requires id in s.hotels && room in RoomsOf(s, id)
    ensures DeleteHotel(s, id).Ok? && !Linked(DeleteHotel(s, id).value)
  {
    var s' := DeleteHotel(s, id).value;
    assert s'.rooms[room].hotelId.value !in s'.hotels;
  }

  /** The DTOs of a list of hotels, one per row and with the row's key. */
  function HotelViews(s: Store, o: StoreOrder, rows: seq<HotelRow>): (dtos: seq<HotelDto>)
    ensures |dtos| == |rows|
    ensures forall i :: 0 <= i < |rows| ==> dtos[i] == HotelView(s, o, rows[i])
    ensures Ids(dtos, HotelDtoKey) == Ids(rows, HotelKey)
  {
    var dtos := seq(|rows|, i requires 0 <= i < |rows| => HotelView(s, o, rows[i]));
    assert forall i :: 0 <= i < |rows| ==> HotelDtoKey(dtos[i]) == HotelKey(rows[i]);
    dtos
  }

  /** `Hotels`: the find-many list, each hotel read with its rooms.
      Unpaged, on a keyed store, it lists every hotel the filter accepts. */
  function Hotels(s: Store, o: StoreOrder, args: FindManyArgs<HotelRow>, p: Paging<HotelRow>)
    : (dtos: seq<HotelDto>)
    requires Selecting(p)
    ensures forall i :: 0 <= i < |dtos| ==>
      exists row :: row in s.hotels.Values && args.where(row) && dtos[i] == HotelView(s, o, row)
    ensures Unpaged(args) && Lists(o, s) && Keyed(s) ==>
      forall k :: k in Ids(dtos, HotelDtoKey) <==> k in s.hotels && args.where(s.hotels[k])
  {
    var rows := FindMany(Scan(s.hotels, o.hotels), args, p);
    assert forall i :: 0 <= i < |rows| ==> rows[i] in rows;
    assert forall i :: 0 <= i < |rows| ==> rows[i] in s.hotels.Values && args.where(rows[i]);
    FindManyKeys(s.hotels, o.hotels, HotelKey, args, p);
    HotelViews(s, o, rows)
  }

  /** `HotelsMeta`: the number of hotels the where-filter accepts; skip,
      take and sort play no part. */
  function HotelsMeta(s: Store, args: FindManyArgs<HotelRow>): (count: nat)
    ensures count <= |s.hotels|
  {
    CountAtMost(s.hotels, args.where);
    Count(s.hotels, args.where)
  }

  /** The meta count depends on the filter alone. */
  lemma HotelsMetaIgnoresPaging(s: Store, where: HotelRow -> bool, skip: Option<int>, take: Option<int>,
                                sortBy: Option<SortBy>)
    ensures HotelsMeta(s, FindManyArgs(where, skip, take, sortBy)) == HotelsMeta(s, FindManyArgs(where, None, None, None))
  {
  }

  /** The meta count is the length of the unpaged list for the same filter. */
  lemma HotelsMetaCountsList(s: Store, o: StoreOrder, args: FindManyArgs<HotelRow>, p: Paging<HotelRow>)
    requires Selecting(p) && Lists(o, s) && Unpaged(args)
    ensures HotelsMeta(s, args) == |Hotels(s, o, args, p)|
  {
    CountIsFilterLength(s.hotels, o.hotels, args.where);
  }

  /** `Hotel`: the first hotel of the list filtered by `Id`, or `NotFound`. */
  function Hotel(s: Store, o: StoreOrder, p: Paging<HotelRow>, id: Id): (r: Result<HotelDto, Error>)
    requires Selecting(p)
    ensures r.Err? ==> r.error == NotFound
    ensures r.Ok? ==> r.value.id == id && r.value.rooms.Some?
  {
    var found := Hotels(s, o, ById(HotelKey, id), p);
    if |found| == 0 then Err(NotFound) else Ok(found[0])
  }

  /** On a keyed store, `Hotel` finds the hotel stored under `id`, with its
      scalars and exactly its rooms, and fails `NotFound` otherwise. */
  lemma HotelFinds(s: Store, o: StoreOrder, p: Paging<HotelRow>, id: Id)
    requires Selecting(p) && Lists(o, s) && Keyed(s)
    ensures var r := Hotel(s, o, p, id);
      && (r.Ok? <==> id in s.hotels)
      && (r.Ok? ==>
            && r.value == HotelView(s, o, s.hotels[id])
            && r.value.name == s.hotels[id].name && r.value.location == s.hotels[id].location
            && r.value.rating == s.hotels[id].rating
            && r.value.createdAt == s.hotels[id].createdAt && r.value.updatedAt == s.hotels[id].updatedAt
            && forall k :: k in r.value.rooms.value <==> k in RoomsOf(s, id))
  {
    FilterByKey(s.hotels, o.hotels, HotelKey, id);
    LoadedRoomsAreRoomsOf(s, o, id);
  }

  /** The rooms an update input lists that exist. */
  function UpdatedRooms(s: Store, input: HotelUpdateInput): set<Id> {
    if input.rooms.Some? then Resolve(input.rooms.value, s.rooms) else {}
  }

  /** `UpdateHotel`: the entity is marked wholly modified, so the stored
      row becomes `ToModel(input, id)`; omitted nullable fields are written
      as null and omitted dates as `DateTime.MinValue`. Listed rooms that
      exist are attached; the hotel's other rooms stay attached, since its
      old collection is never loaded. A save that hits no row, or a
      concurrency exception, ends in `NotFound` exactly when the hotel no
      longer exists, and re-throws otherwise. */
  function UpdateHotel(s: Store, id: Id, input: HotelUpdateInput, c: Concurrency): (r: Result<Store, Error>)
    ensures c.Alone? ==> (r.Ok? <==> id in s.hotels)
    ensures c.Raced? ==> r.Err?
    ensures r.Err? ==> r.error == NotFound || r.error == ConcurrencyConflict
    ensures r.Err? ==> (r.error == NotFound <==> id !in (if c.Raced? then c.after else s).hotels)
    ensures r.Ok? ==>
      && r.value.hotels.Keys == s.hotels.Keys
      && r.value.hotels[id] == HotelsExtensions.ToModel(input, id).row
      && (forall k | k in s.hotels && k != id :: r.value.hotels[k] == s.hotels[k])
      && RoomsOf(r.value, id) == RoomsOf(s, id) + UpdatedRooms(s, input)
      && r.value.rooms.Keys == s.rooms.Keys
      && (forall k | k in UpdatedRooms(s, input) :: r.value.rooms[k] == s.rooms[k].(hotelId := Some(id)))
      && (forall k | k in s.rooms && k !in UpdatedRooms(s, input) :: r.value.rooms[k] == s.rooms[k])
      && r.value.bookings == s.bookings && r.value.customers == s.customers
      && (Keyed(s) ==> Keyed(r.value))
      && (Linked(s) ==> Linked(r.value))
  {
    var model := HotelsExtensions.ToModel(input, id);
    match c
    case Raced(after) => Err(ConcurrencyError(id in after.hotels))
    case Alone =>
      if id !in s.hotels then Err(ConcurrencyError(false))
      else Ok(s.(hotels := s.hotels[id := model.row],
                 rooms := SetHotel(s.rooms, UpdatedRooms(s, input), Some(id))))
  }

  /** An update is not a partial one: a field the input leaves null is
      cleared, whatever the hotel held before. */
  lemma UpdateHotelClearsOmittedFields(s: Store, id: Id, input: HotelUpdateInput)
    requires id in s.hotels && input.name.None? && input.createdAt.None?
    ensures var r := UpdateHotel(s, id, input, Alone);
      r.Ok? && r.value.hotels[id].name.None? && r.value.hotels[id].createdAt == MinDateTime
  {
  }

  /** `ConnectRooms`: fails `NotFound` when the hotel is missing or none of
      the ids names a room; otherwise attaches each found room that is not
      attached yet. */
  function ConnectRooms(s: Store, id: Id, ids: seq<Id>): (r: Result<Store, Error>)
    ensures r.Err? <==> id !in s.hotels || Resolve(ids, s.rooms) == {}
    ensures r.Err? ==> r.error == NotFound
    ensures r.Ok? ==>
      && RoomsOf(r.value, id) == RoomsOf(s, id) + Resolve(ids, s.rooms)
      && r.value.rooms.Keys == s.rooms.Keys
      && (forall k | k in s.rooms && k !in Resolve(ids, s.rooms) :: r.value.rooms[k] == s.rooms[k])
      && (forall k | k in Resolve(ids, s.rooms) :: r.value.rooms[k] == s.rooms[k].(hotelId := Some(id)))
      && r.value.hotels == s.hotels && r.value.bookings == s.bookings
      && r.value.customers == s.customers
      && (Keyed(s) ==> Keyed(r.value))
      && (Linked(s) ==> Linked(r.value))
  {
    if id !in s.hotels then Err(NotFound)
    else
      var children := Resolve(ids, s.rooms);
      if children == {} then Err(NotFound)
      else
        var toConnect := children - RoomsOf(s, id);
        Ok(s.(rooms := SetHotel(s.rooms, toConnect, Some(id))))
  }

  /** Connecting the same rooms a second time changes nothing. */
  lemma ConnectRoomsIdempotent(s: Store, id: Id, ids: seq<Id>)
    requires ConnectRooms(s, id, ids).Ok?
    ensures var once := ConnectRooms(s, id, ids).value;
      ConnectRooms(once, id, ids) == Ok(once)
  {
    var once := ConnectRooms(s, id, ids).value;
    assert Resolve(ids, once.rooms) == Resolve(ids, s.rooms);
    assert Resolve(ids, once.rooms) - RoomsOf(once, id) == {};
    assert SetHotel(once.rooms, {}, Some(id)) == once.rooms;
  }

  /** `DisconnectRooms`: fails `NotFound` only when the hotel is missing;
      detaches each found room that was attached to it and ignores the
      other ids. */
  function DisconnectRooms(s: Store, id: Id, ids: seq<Id>): (r: Result<Store, Error>)
    ensures r.Err? <==> id !in s.hotels
    ensures r.Err? ==> r.error == NotFound
    ensures r.Ok? ==>
      && RoomsOf(r.value, id) == RoomsOf(s, id) - Resolve(ids, s.rooms)
      && r.value.rooms.Keys == s.rooms.Keys
      && (forall k | k in s.rooms && (k !in Resolve(ids, s.rooms) || k !in RoomsOf(s, id)) ::
            r.value.rooms[k] == s.rooms[k])
      && (forall k | k in Resolve(ids, s.rooms) * RoomsOf(s, id) :: r.value.rooms[k] == s.rooms[k].(hotelId := None))
      && r.value.hotels == s.hotels && r.value.bookings == s.bookings
      && r.value.customers == s.customers
      && (Keyed(s) ==> Keyed(r.value))
      && (Linked(s) ==> Linked(r.value))
  {
    if id !in s.hotels then Err(NotFound)
    else
      var children := Resolve(ids, s.rooms);
      Ok(s.(rooms := SetHotel(s.rooms, children * RoomsOf(s, id), None)))
  }

  /** Disconnecting rooms none of which is attached leaves the store as
      it was. */
  lemma DisconnectUnattachedIsNoop(s: Store, id: Id, ids: seq<Id>)
    requires id in s.hotels && Resolve(ids, s.rooms) * RoomsOf(s, id) == {}
    ensures DisconnectRooms(s, id, ids) == Ok(s)
  {
    assert SetHotel(s.rooms, {}, None) == s.rooms;
  }

  /** Connecting rooms and then disconnecting the same ids leaves the
      hotel with the rooms it had that were not listed. */
  lemma DisconnectUndoesConnect(s: Store, id: Id, ids: seq<Id>)
    requires ConnectRooms(s, id, ids).Ok?
    ensures var once := ConnectRooms(s, id, ids).value;
      var back := DisconnectRooms(once, id, ids);
      back.Ok? && RoomsOf(back.value, id) == RoomsOf(s, id) - Resolve(ids, s.rooms)
  {
    var once := ConnectRooms(s, id, ids).value;
    assert Resolve(ids, once.rooms) == Resolve(ids, s.rooms);
  }

  /** The rooms a where-filter keeps from a hotel's loaded rooms are, on a
      keyed store, exactly the hotel's rooms the filter accepts. */
  lemma LoadedRoomsWhere(s: Store, o: StoreOrder, hotel: Id, where: RoomRow -> bool)
    ensures Lists(o, s) && Keyed(s) ==>
      forall k :: k in Ids(Filter(LoadedRooms(s, o, hotel), where), RoomKey) <==>
        k in RoomsOf(s, hotel) && where(s.rooms[k])
  {
    if Lists(o, s) && Keyed(s) {
      FilterFilter(Scan(s.rooms, o.rooms), InHotel(hotel), where);
      FilterScanKeys(s.rooms, o.rooms, RoomKey, Both(InHotel(hotel), where));
    }
  }

  /** `FindRooms`: the rooms whose `HotelId` is `hotel`, filtered and
      paged. No existence check is made, and `Bookings` is not included, so
      each DTO carries the initial empty booking list. Unpaged, on a keyed
      store, it lists every room of the hotel the filter accepts. */
  function FindRooms(s: Store, o: StoreOrder, hotel: Id, args: FindManyArgs<RoomRow>, p: Paging<RoomRow>)
    : (dtos: seq<RoomDto>)
    requires Selecting(p)
    ensures forall i :: 0 <= i < |dtos| ==> dtos[i].hotel == Some(hotel) && dtos[i].bookings == Some([])
    ensures Keyed(s) ==> forall i :: 0 <= i < |dtos| ==>
      dtos[i].id in RoomsOf(s, hotel) && args.where(s.rooms[dtos[i].id])
    ensures Unpaged(args) && Lists(o, s) && Keyed(s) ==>
      forall k :: k in Ids(dtos, RoomDtoKey) <==> k in RoomsOf(s, hotel) && args.where(s.rooms[k])
  {
    FoundRooms(s, o, hotel, args, p);
    RoomDtosWithoutBookings(FindMany(LoadedRooms(s, o, hotel), args, p))
  }

  /** The rows `FindRooms` reads: rooms of the hotel the filter accepts,
      all of them when nothing is paged. */
  lemma FoundRooms(s: Store, o: StoreOrder, hotel: Id, args: FindManyArgs<RoomRow>, p: Paging<RoomRow>)
    requires Selecting(p)
    ensures var rows := FindMany(LoadedRooms(s, o, hotel), args, p);
      && (forall i :: 0 <= i < |rows| ==> rows[i].hotelId == Some(hotel))
      && (Keyed(s) ==> forall i :: 0 <= i < |rows| ==>
            rows[i].id in RoomsOf(s, hotel) && args.where(s.rooms[rows[i].id]))
      && (Unpaged(args) && Lists(o, s) && Keyed(s) ==>
            forall k :: k in Ids(rows, RoomKey) <==> k in RoomsOf(s, hotel) && args.where(s.rooms[k]))
  {
    var rows := FindMany(LoadedRooms(s, o, hotel), args, p);
    assert forall i :: 0 <= i < |rows| ==> rows[i] in rows;
    assert Keyed(s) ==> forall i :: 0 <= i < |rows| ==> StoredUnderKey(s.rooms, RoomKey, rows[i]);
    LoadedRoomsWhere(s, o, hotel, args.where);
  }

  /** The DTOs of rooms read without their bookings: each keeps the row's
      key and hotel key and carries the initial empty booking list. */
  function RoomDtosWithoutBookings(rows: seq<RoomRow>): (dtos: seq<RoomDto>)
    ensures |dtos| == |rows|
    ensures forall i :: 0 <= i < |rows| ==>
      dtos[i].id == rows[i].id && dtos[i].hotel == rows[i].hotelId && dtos[i].bookings == Some([])
    ensures Ids(dtos, RoomDtoKey) == Ids(rows, RoomKey)
  {
    var dtos := seq(|rows|, i requires 0 <= i < |rows| => RoomsExtensions.ToDto(RoomModel(rows[i], Some([]))));
    assert forall i :: 0 <= i < |rows| ==> RoomDtoKey(dtos[i]) == RoomKey(rows[i]);
    dtos
  }

  /** On a store without dangling keys, listing the rooms of an unknown
      hotel yields nothing rather than `NotFound`. */
  lemma FindRoomsOfUnknownHotel(s: Store, o: StoreOrder, hotel: Id, args: FindManyArgs<RoomRow>,
                                p: Paging<RoomRow>)
    requires Selecting(p) && Linked(s) && Keyed(s) && hotel !in s.hotels
    ensures FindRooms(s, o, hotel, args, p) == []
  {
    var rows := Scan(s.rooms, o.rooms);
    assert forall i :: 0 <= i < |rows| ==> rows[i] in s.rooms.Values;
    FilterNone(rows, InHotel(hotel));
  }

  /** `UpdateRooms`: fails `NotFound` when the hotel is missing or the ids
      resolve to no room, an empty list included; otherwise the hotel's
      rooms become exactly the found rooms. */
  function UpdateRooms(s: Store, id: Id, ids: seq<Id>): (r: Result<Store, Error>)
    ensures r.Err? <==> id !in s.hotels || Resolve(ids, s.rooms) == {}
    ensures r.Err? ==> r.error == NotFound
    ensures r.Ok? ==>
      && RoomsOf(r.value, id) == Resolve(ids, s.rooms)
      && r.value.rooms.Keys == s.rooms.Keys
      && (forall k | k in s.rooms && k !in Resolve(ids, s.rooms) && k !in RoomsOf(s, id) ::
            r.value.rooms[k] == s.rooms[k])
      && (forall k | k in Resolve(ids, s.rooms) :: r.value.rooms[k] == s.rooms[k].(hotelId := Some(id)))
      && (forall k | k in RoomsOf(s, id) - Resolve(ids, s.rooms) :: r.value.rooms[k] == s.rooms[k].(hotelId := None))
      && r.value.hotels == s.hotels && r.value.bookings == s.bookings
      && r.value.customers == s.customers
      && (Keyed(s) ==> Keyed(r.value))
      && (Linked(s) ==> Linked(r.value))
  {
    if id !in s.hotels then Err(NotFound)
    else
      var children := Resolve(ids, s.rooms);
      if children == {} then Err(NotFound)
      else
        Ok(ReplaceRooms(s, id, children))
  }

  /** Replacing a hotel's rooms with an empty list fails rather than
      clearing them. */
  lemma UpdateRoomsWithNoIdsFails(s: Store, id: Id)
    ensures UpdateRooms(s, id, []) == Err(NotFound)
  {
  }
}
