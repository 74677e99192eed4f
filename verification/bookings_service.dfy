/** `BookingsServiceBase`: create, read, update and delete bookings, and
    read a booking's customer and room. Every operation is a function from
    the store to a result; a failing operation leaves the store as it
    was. */
module BookingsService {
  import opened Wrappers
  import opened Values
  import opened Models
  import opened Dtos
  import opened Query
  import opened Database
  import BookingsExtensions
  import CustomersExtensions
  import RoomsExtensions

  /** The customer key a new booking gets: the named customer when it
      exists, and null when the input names none or an unknown one. */
  function RequestedCustomer(s: Store, input: BookingCreateInput): (customer: Option<Id>)
    ensures customer.Some? <==> input.customer.Some? && input.customer.value.id in s.customers
    ensures customer.Some? ==> customer.value == input.customer.value.id
  {
    if input.customer.Some? && input.customer.value.id in s.customers then Some(input.customer.value.id) else None
  }

  /** The room key a new booking gets: the named room when it exists, and
      null when the input names none or an unknown one. */
  function RequestedRoom(s: Store, input: BookingCreateInput): (room: Option<Id>)
    ensures room.Some? <==> input.room.Some? && input.room.value.id in s.rooms
    ensures room.Some? ==> room.value == input.room.value.id
  {
    if input.room.Some? && input.room.value.id in s.rooms then Some(input.room.value.id) else None
  }

  /** `RequestedCustomer` is the key of the customer that
      `Customers.Where(customer => createDto.Customer.Id == customer.Id).FirstOrDefaultAsync()`
      loads on a keyed store, and null when that query finds nothing or the
      input names no customer. */
  lemma RequestedCustomerIsFirstMatch(s: Store, o: StoreOrder, input: BookingCreateInput)
    requires Lists(o, s) && Keyed(s)
    ensures input.customer.None? ==> RequestedCustomer(s, input).None?
    ensures input.customer.Some? ==>
      var first := FirstOrNone(Filter(Scan(s.customers, o.customers), HasKey(CustomerKey, input.customer.value.id)));
      RequestedCustomer(s, input) == if first.Some? then Some(CustomerKey(first.value)) else None
  {
    if input.customer.Some? {
      FirstByKey(s.customers, o.customers, CustomerKey, input.customer.value.id);
    }
  }

  /** `RequestedRoom` is the key of the room that
      `Rooms.Where(room => createDto.Room.Id == room.Id).FirstOrDefaultAsync()`
      loads on a keyed store, and null when that query finds nothing or the
      input names no room. */
  lemma RequestedRoomIsFirstMatch(s: Store, o: StoreOrder, input: BookingCreateInput)
    requires Lists(o, s) && Keyed(s)
    ensures input.room.None? ==> RequestedRoom(s, input).None?
    ensures input.room.Some? ==>
      var first := FirstOrNone(Filter(Scan(s.rooms, o.rooms), HasKey(RoomKey, input.room.value.id)));
      RequestedRoom(s, input) == if first.Some? then Some(RoomKey(first.value)) else None
  {
    if input.room.Some? {
      FirstByKey(s.rooms, o.rooms, RoomKey, input.room.value.id);
    }
  }

  /** `CreateBooking`: inserts a booking under the input's `Id`. The key
      is a string with no value generation, so an input without one cannot
      be tracked and the insert fails. Its customer and its room are each
      the named one if it exists; an unknown id is dropped without error.
      Returns the new store and the DTO of the booking as read back. */
  function CreateBooking(s: Store, input: BookingCreateInput)
    : (r: Result<(Store, BookingDto), Error>)
    ensures r.Err? <==> input.id.None? || input.id.value in s.bookings
    ensures r.Err? ==> r.error == (if input.id.None? then NullKey else DuplicateKey)
    ensures r.Ok? ==>
      var id := input.id.value;
      var s' := r.value.0;
      var dto := r.value.1;
      && id in s'.bookings && s'.bookings - {id} == s.bookings
      && s'.bookings[id].id == id
      && s'.bookings[id].customerId == RequestedCustomer(s, input)
      && s'.bookings[id].roomId == RequestedRoom(s, input)
      && s'.bookings[id].createdAt == input.createdAt && s'.bookings[id].updatedAt == input.updatedAt
      && s'.bookings[id].startDate == input.startDate && s'.bookings[id].endDate == input.endDate
      && s'.bookings[id].totalPrice == input.totalPrice
      && s'.hotels == s.hotels && s'.rooms == s.rooms && s'.customers == s.customers
      && (forall room :: BookingsOf(s', room) ==
            BookingsOf(s, room) + (if RequestedRoom(s, input) == Some(room) then {id} else {}))
      && (Keyed(s) ==> Keyed(s'))
      && (Linked(s) ==> Linked(s'))
      && dto == BookingsExtensions.ToDto(s'.bookings[id])
  {
    if input.id.None? then Err(NullKey)
    else if input.id.value in s.bookings then Err(DuplicateKey)
    else
      var id := input.id.value;
      var row := BookingRow(
        createdAt := input.createdAt,
        customerId := RequestedCustomer(s, input),
        endDate := input.endDate,
        id := id,
        roomId := RequestedRoom(s, input),
        startDate := input.startDate,
        totalPrice := input.totalPrice,
        updatedAt := input.updatedAt);
      LinkedAfterNewBooking(s, row);
      Ok((s.(bookings := s.bookings[id := row]), BookingsExtensions.ToDto(row)))
  }

  /** `DeleteBooking`: removes the booking, or fails `NotFound`. */
  function DeleteBooking(s: Store, id: Id): (r: Result<Store, Error>)
    ensures r.Err? <==> id !in s.bookings
    ensures r.Err? ==> r.error == NotFound
    ensures r.Ok? ==> id !in r.value.bookings && |r.value.bookings| == |s.bookings| - 1
    ensures r.Ok? ==> forall k :: k != id ==> (k in r.value.bookings <==> k in s.bookings)
    ensures r.Ok? ==> forall k | k in r.value.bookings :: r.value.bookings[k] == s.bookings[k]
    ensures r.Ok? ==> r.value.hotels == s.hotels && r.value.rooms == s.rooms
    ensures r.Ok? ==> r.value.customers == s.customers
    ensures r.Ok? && Keyed(s) ==> Keyed(r.value)
    ensures r.Ok? && Linked(s) ==> Linked(r.value)
  {
    if id !in s.bookings then Err(NotFound)
    else
      var bookings := s.bookings - {id};
      assert bookings.Keys == s.bookings.Keys - {id};
      Ok(s.(bookings := bookings))
  }

  /** Creating a booking and deleting it again restores the store. */
  lemma DeleteUndoesCreate(s: Store, input: BookingCreateInput)
    requires CreateBooking(s, input).Ok?
    ensures var s' := CreateBooking(s, input).value.0;
      DeleteBooking(s', input.id.value) == Ok(s)
  {
    var id := input.id.value;
    var s' := CreateBooking(s, input).value.0;
    assert s'.bookings - {id} == s.bookings;
  }

  /** `Bookings`: the find-many list. The room and customer are included,
      but the DTO shows only their keys. Unpaged, on a keyed store, it
      lists every booking the filter accepts. */
  function Bookings(s: Store, o: StoreOrder, args: FindManyArgs<BookingRow>, p: Paging<BookingRow>)
    : (dtos: seq<BookingDto>)
    requires Selecting(p)
    ensures forall i :: 0 <= i < |dtos| ==>
      exists row :: row in s.bookings.Values && args.where(row) && dtos[i] == BookingsExtensions.ToDto(row)
    ensures Unpaged(args) && Lists(o, s) && Keyed(s) ==>
      forall k :: k in Ids(dtos, BookingDtoKey) <==> k in s.bookings && args.where(s.bookings[k])
  {
    var rows := FindMany(Scan(s.bookings, o.bookings), args, p);
    assert forall i :: 0 <= i < |rows| ==> rows[i] in rows;
    assert forall i :: 0 <= i < |rows| ==> rows[i] in s.bookings.Values && args.where(rows[i]);
    FindManyKeys(s.bookings, o.bookings, BookingKey, args, p);
    BookingsExtensions.ToDtos(rows)
  }

  /** `BookingsMeta`: the number of bookings the where-filter accepts;
      skip, take and sort play no part. */
  function BookingsMeta(s: Store, args: FindManyArgs<BookingRow>): (count: nat)
    ensures count <= |s.bookings|
  {
    CountAtMost(s.bookings, args.where);
    Count(s.bookings, args.where)
  }

  /** The meta count depends on the filter alone. */
  lemma BookingsMetaIgnoresPaging(s: Store, where: BookingRow -> bool, skip: Option<int>, take: Option<int>,
                                  sortBy: Option<SortBy>)
    ensures BookingsMeta(s, FindManyArgs(where, skip, take, sortBy))
         == BookingsMeta(s, FindManyArgs(where, None, None, None))
  {
  }

  /** The meta count is the length of the unpaged list for the same filter. */
  lemma BookingsMetaCountsList(s: Store, o: StoreOrder, args: FindManyArgs<BookingRow>, p: Paging<BookingRow>)
    requires Selecting(p) && Lists(o, s) && Unpaged(args)
    ensures BookingsMeta(s, args) == |Bookings(s, o, args, p)|
  {
    CountIsFilterLength(s.bookings, o.bookings, args.where);
  }

  /** `Booking`: the first booking of the list filtered by `Id`, or
      `NotFound`. */
  function Booking(s: Store, o: StoreOrder, p: Paging<BookingRow>, id: Id): (r: Result<BookingDto, Error>)
    requires Selecting(p)
    ensures r.Err? ==> r.error == NotFound
    ensures r.Ok? ==> r.value.id == id
  {
    var found := Bookings(s, o, ById(BookingKey, id), p);
    if |found| == 0 then Err(NotFound) else Ok(found[0])
  }

  /** On a keyed store, `Booking` finds the booking stored under `id`, with
      its scalars and both keys, and fails `NotFound` otherwise. */
  lemma BookingFinds(s: Store, o: StoreOrder, p: Paging<BookingRow>, id: Id)
    requires Selecting(p) && Lists(o, s) && Keyed(s)
    ensures var r := Booking(s, o, p, id);
      && (r.Ok? <==> id in s.bookings)
      && (r.Ok? ==>
            && r.value.customer == s.bookings[id].customerId && r.value.room == s.bookings[id].roomId
            && r.value.startDate == s.bookings[id].startDate && r.value.endDate == s.bookings[id].endDate
            && r.value.totalPrice == s.bookings[id].totalPrice
            && r.value.createdAt == s.bookings[id].createdAt && r.value.updatedAt == s.bookings[id].updatedAt)
  {
    FilterByKey(s.bookings, o.bookings, BookingKey, id);
  }

  /** `UpdateBooking`: the entity is marked wholly modified, so the stored
      row becomes `ToModel(input, id)`; omitted nullable fields, the
      customer and room keys among them, are written as null and omitted
      dates as `DateTime.MinValue`. A key naming no row is written as
      given. A save that hits no row, or a concurrency exception, ends in
      `NotFound` exactly when the booking no longer exists, and re-throws
      otherwise. */
  function UpdateBooking(s: Store, id: Id, input: BookingUpdateInput, c: Concurrency): (r: Result<Store, Error>)
    ensures c.Alone? ==> (r.Ok? <==> id in s.bookings)
    ensures c.Raced? ==> r.Err?
    ensures r.Err? ==> r.error == NotFound || r.error == ConcurrencyConflict
    ensures r.Err? ==> (r.error == NotFound <==> id !in (if c.Raced? then c.after else s).bookings)
    ensures r.Ok? ==>
      && r.value.bookings.Keys == s.bookings.Keys
      && r.value.bookings[id] == BookingsExtensions.ToModel(input, id)
      && (forall k | k in s.bookings && k != id :: r.value.bookings[k] == s.bookings[k])
      && r.value.hotels == s.hotels && r.value.rooms == s.rooms && r.value.customers == s.customers
      && (Keyed(s) ==> Keyed(r.value))
  {
    match c
    case Raced(after) => Err(ConcurrencyError(id in after.bookings))
    case Alone =>
      if id !in s.bookings then Err(ConcurrencyError(false))
      else Ok(s.(bookings := s.bookings[id := BookingsExtensions.ToModel(input, id)]))
  }

  /** An update is not a partial one: an input that sets only the total
      price detaches the booking from its customer and its room, clears
      `StartDate` and `EndDate`, and resets `CreatedAt` and `UpdatedAt` to
      `DateTime.MinValue`. */
  lemma UpdateBookingClearsOmittedFields(s: Store, id: Id, price: Double)
    requires id in s.bookings
    ensures var input := BookingUpdateInput(None, None, None, None, None, None, Some(price), None);
      var r := UpdateBooking(s, id, input, Alone);
      && r.Ok?
      && r.value.bookings[id].customerId.None? && r.value.bookings[id].roomId.None?
      && r.value.bookings[id].createdAt == MinDateTime && r.value.bookings[id].updatedAt == MinDateTime
      && r.value.bookings[id].startDate.None? && r.value.bookings[id].endDate.None?
      && r.value.bookings[id].totalPrice == Some(price)
      && forall room :: id !in BookingsOf(r.value, room)
  {
  }

  /** An update naming a room that does not exist stores the dangling key:
      the store is no longer linked. */
  lemma UpdateBookingKeepsUnknownRoom(s: Store, id: Id, input: BookingUpdateInput)
    requires id in s.bookings && input.room.Some? && input.room.value !in s.rooms
    ensures var r := UpdateBooking(s, id, input, Alone);
      r.Ok? && r.value.bookings[id].roomId == input.room && !Linked(r.value)
  {
    var r := UpdateBooking(s, id, input, Alone).value;
    assert r.bookings[id].roomId.value !in r.rooms;
  }

  /** `GetCustomer`: the customer of the booking, read through the
      `Customer` navigation. `NotFound` when the booking is missing; a null
      navigation (no customer key, or a key naming no customer) is
      dereferenced and throws. The customer's `Bookings` collection holds
      only the rows the query tracked, which is the one booking. */
  function GetCustomer(s: Store, id: Id): (r: Result<CustomerDto, Error>)
    ensures r.Err? <==>
      id !in s.bookings || s.bookings[id].customerId.None? || s.bookings[id].customerId.value !in s.customers
    ensures r.Err? ==> (r.error == NotFound <==> id !in s.bookings)
    ensures r.Err? ==> r.error == NotFound || r.error == NullReference
    ensures r.Ok? ==>
      var customer := s.customers[s.bookings[id].customerId.value];
      && r.value.id == customer.id
      && r.value.email == customer.email && r.value.phoneNumber == customer.phoneNumber
      && r.value.firstName == customer.firstName && r.value.lastName == customer.lastName
      && r.value.createdAt == customer.createdAt && r.value.updatedAt == customer.updatedAt
      && r.value.bookings == Some([s.bookings[id].id])
  {
    if id !in s.bookings then Err(NotFound)
    else
      var booking := s.bookings[id];
      if booking.customerId.None? || booking.customerId.value !in s.customers then Err(NullReference)
      else
        var dto := CustomersExtensions.ToDto(CustomerModel(s.customers[booking.customerId.value], Some([booking])));
        assert dto.bookings.value == [booking.id];
        Ok(dto)
  }

  /** On a keyed store, `GetCustomer` returns customer `c` exactly when the
      booking's customer key names `c` and `c` exists. */
  lemma GetCustomerFollowsKey(s: Store, id: Id, c: Id)
    requires Keyed(s)
    ensures var r := GetCustomer(s, id);
      r.Ok? && r.value.id == c <==> id in s.bookings && s.bookings[id].customerId == Some(c) && c in s.customers
  {
  }

  /** `GetRoom`: the room of the booking, read through the `Room`
      navigation. `NotFound` when the booking is missing; a null navigation
      (no room key, or a key naming no room) is dereferenced and throws.
      The room's `Bookings` collection holds only the rows the query
      tracked, which is the one booking. */
  function GetRoom(s: Store, id: Id): (r: Result<RoomDto, Error>)
    ensures r.Err? <==> id !in s.bookings || s.bookings[id].roomId.None? || s.bookings[id].roomId.value !in s.rooms
    ensures r.Err? ==> (r.error == NotFound <==> id !in s.bookings)
    ensures r.Err? ==> r.error == NotFound || r.error == NullReference
    ensures r.Ok? ==>
      var room := s.rooms[s.bookings[id].roomId.value];
      && r.value.id == room.id && r.value.hotel == room.hotelId
      && r.value.price == room.price && r.value.roomNumber == room.roomNumber
      && r.value.typeField == room.typeField
      && r.value.createdAt == room.createdAt && r.value.updatedAt == room.updatedAt
      && r.value.bookings == Some([s.bookings[id].id])
  {
    if id !in s.bookings then Err(NotFound)
    else
      var booking := s.bookings[id];
      if booking.roomId.None? || booking.roomId.value !in s.rooms then Err(NullReference)
      else
        var dto := RoomsExtensions.ToDto(RoomModel(s.rooms[booking.roomId.value], Some([booking])));
        assert dto.bookings.value == [booking.id];
        Ok(dto)
  }

  /** On a keyed store, `GetRoom` inverts the `Bookings` collection: it
      returns room `room` exactly when the booking is one of its bookings
      and the room exists. */
  lemma GetRoomInvertsBookingsOf(s: Store, id: Id, room: Id)
    requires Keyed(s)
    ensures var r := GetRoom(s, id);
      r.Ok? && r.value.id == room <==> id in BookingsOf(s, room) && room in s.rooms
  {
  }
}
