# Hotel booking services in Dafny

This project models the service layer of a hotel-booking back end generated by
Amplication (ASP.NET Core over Entity Framework Core). The service layer covers
three services and four mapper classes:

- `HotelsServiceBase`, `RoomsServiceBase` and `BookingsServiceBase` do create,
  read, update and delete, and maintain the relations:
  - a hotel has rooms;
  - a room has bookings;
  - a booking has a customer and a room.
- The `*Extensions` classes map between database entities and DTOs. DTOs are
  the records the API accepts and returns.

The database is an immutable `Store`: four maps from `Id` to row. A collection
navigation is not stored. It is derived from the children's foreign keys:

- `RoomsOf(s, h)` is the set of rooms whose `HotelId` is `h`.
- `BookingsOf(s, r)` is the set of bookings whose `RoomId` is `r`.

Every service operation is a pure function from the store to a `Result`. A
successful save is one atomic replacement of the store. A thrown exception is an
`Error`: `NotFound`, `ConcurrencyConflict`, `NullReference`, `DuplicateKey` or
`NullKey`.
Things the code cannot see are parameters:

- `StoreOrder` is the order the database returns rows in.
- `Paging` holds the `ApplySkip`, `ApplyTake` and `ApplyOrderBy` stages.
- `Concurrency` says whether a save raced with another writer.

Keys are strings, and the database context configures no value generation for
them. So the model does not invent a key on insert: a create input without an
`Id` fails with `NullKey`.

Two invariants appear throughout:

- `Keyed` means each row is stored under its own `Id`. Every operation keeps it.
- `Linked` means no foreign key dangles. Creates keep it, and so do the
  connect, disconnect and replace operations on a collection, a hotel update
  and a booking delete. A hotel or room delete and a room or booking update
  can break it in this model. The model has no foreign-key constraints: it
  records what the service code writes, and the service code never touches
  the children of a deleted row or checks an updated key. The lemmas
  `DeleteHotelLeavesDanglingRooms`, `DeleteRoomLeavesDanglingBookings` and
  `UpdateBookingKeepsUnknownRoom` show the resulting store. With the schema
  Entity Framework derives by convention, the database would reject those
  saves instead (see "## Left out").

Modules follow the source:

| module | what it holds |
|---|---|
| `Wrappers` | `Option` and `Result` |
| `Values` | `Id`, `DateTime`, `Double` |
| `Models` | the entity rows |
| `Dtos` | the DTOs |
| `Query` | LINQ `Where`, the find-many pipeline and `Count` |
| `Database` | the store and relation helpers |
| `HotelsExtensions`, `RoomsExtensions`, `BookingsExtensions`, `CustomersExtensions` | one module per mapper class |
| `HotelsService`, `RoomsService`, `BookingsService` | one module per service |

Update operations follow the code, which does not do partial updates. The update
input is turned into a whole entity by `ToModel`, and the entity's state is set
to `Modified`. As a result, every field the input leaves null is written as null
(or as `DateTime.MinValue` for dates), and so is every relation key it omits. The
`…ClearsOmittedFields` lemmas state this.

## Model

| member | source | states |
|---|---|---|
| `HotelsExtensions.ToDto` | apps/hotel-booking/src/APIs/Hotel/HotelsExtensions.cs:8-20 | Scalars are copied unchanged. `Rooms` is null exactly when the model's list is null; otherwise it has the same length and, at each position, the id of the room there. |
| `HotelsExtensions.ToModel` | apps/hotel-booking/src/APIs/Hotel/HotelsExtensions.cs:22-45 | `Id` comes from the route key. `Location`, `Name` and `Rating` are copied with null included. Each date is set only when given, otherwise it is `DateTime.MinValue`. `Rooms` is the initial empty list. |
| `HotelsExtensions.ToModelIgnoresInputId` | apps/hotel-booking/src/APIs/Hotel/HotelsExtensions.cs:22-30 | The input's own `Id` has no effect on the entity built. |
| `HotelsExtensions.ToDtoOfToModel` | apps/hotel-booking/src/APIs/Hotel/HotelsExtensions.cs:8-45 | Mapping an update input to an entity and back gives the route key, the input's scalars, the dates or `MinValue`, and an empty room list. |
| `RoomsExtensions.ToDto` | apps/hotel-booking/src/APIs/Room/RoomsExtensions.cs:8-21 | `Hotel` is the model's `HotelId` and the other scalars are copied. `Bookings` is null exactly when the model's list is null; otherwise it lists the booking ids in order, with the same length. |
| `RoomsExtensions.ToModel` | apps/hotel-booking/src/APIs/Room/RoomsExtensions.cs:23-47 | `Id` comes from the route key. `Price`, `RoomNumber` and `TypeField` are copied with null included. `CreatedAt`, `HotelId` and `UpdatedAt` are set only when given. `Bookings` stays the empty list. |
| `RoomsExtensions.ToModelIgnoresInputId` | apps/hotel-booking/src/APIs/Room/RoomsExtensions.cs:23-27 | The input's own `Id` has no effect on the entity built. |
| `RoomsExtensions.ToDtoOfToModel` | apps/hotel-booking/src/APIs/Room/RoomsExtensions.cs:8-47 | The round trip from update input to DTO gives the route key, the input's hotel and scalars, the dates or `MinValue`, and no bookings. |
| `BookingsExtensions.ToDto` | apps/hotel-booking/src/APIs/Booking/BookingsExtensions.cs:8-21 | `Id`, the four dates and `TotalPrice` are copied. `CustomerId` appears as `Customer` and `RoomId` as `Room`. |
| `BookingsExtensions.ToDtos` | apps/hotel-booking/src/APIs/Booking/Base/BookingsServiceBase.cs:84-95 | Mapping a list of bookings gives one DTO per row, in order, with the row's key. |
| `BookingsExtensions.ToModel` | apps/hotel-booking/src/APIs/Booking/BookingsExtensions.cs:23-54 | `Id` comes from the route key. `StartDate`, `EndDate` and `TotalPrice` are copied with null included. `CreatedAt`, `CustomerId`, `RoomId` and `UpdatedAt` are set only when given, otherwise they keep their defaults. |
| `BookingsExtensions.ToModelIgnoresInputId` | apps/hotel-booking/src/APIs/Booking/BookingsExtensions.cs:23-30 | The input's own `Id` has no effect on the entity built. |
| `BookingsExtensions.ToDtoOfToModel` | apps/hotel-booking/src/APIs/Booking/BookingsExtensions.cs:8-54 | Mapping an update input to an entity and back gives the route key and the input's dates, price, customer and room. |
| `CustomersExtensions.ToDto` | apps/hotel-booking/src/APIs/Customer/CustomersExtensions.cs:8-21 | The contact fields and dates are copied. `Bookings` is null exactly when the model's list is null; otherwise it lists the booking ids in order, with the same length. |
| `CustomersExtensions.ToModel` | apps/hotel-booking/src/APIs/Customer/CustomersExtensions.cs:23-47 | `Id` comes from the route key. The four contact fields are copied with null included. The dates are set only when given. `Bookings` stays the empty list; the customer entity's initializer is not part of this model and is assumed to be an empty list, as in the hotel and room entities. |
| `CustomersExtensions.ToModelIgnoresInputId` | apps/hotel-booking/src/APIs/Customer/CustomersExtensions.cs:23-30 | The input's own `Id` has no effect on the entity built. |
| `CustomersExtensions.ToDtoOfToModel` | apps/hotel-booking/src/APIs/Customer/CustomersExtensions.cs:8-47 | Mapping an update input to an entity and back gives the route key, the contact fields, the dates or `MinValue`, and no bookings, under the same assumed empty initializer. |
| `Query.FindMany` | apps/hotel-booking/src/APIs/Hotel/Base/HotelsServiceBase.cs:79-85 | Every row returned exists in the table and passes the where-filter, and there are never more rows than the filter keeps. With no skip, take or sort, the result is exactly the filtered rows in database order. |
| `Query.CountIsFilterLength` | apps/hotel-booking/src/APIs/Hotel/Base/HotelsServiceBase.cs:77-97 | The number of keys whose row passes a filter equals the length of the filtered enumeration of the table. |
| `Query.FilterByKey` | apps/hotel-booking/src/APIs/Hotel/Base/HotelsServiceBase.cs:104-107 | On a keyed table, filtering by `Id == id` yields exactly the row stored under `id`, or nothing. |
| `Query.FilterScanKeys` | apps/hotel-booking/src/APIs/Hotel/Base/HotelsServiceBase.cs:41-43 | On a keyed table, the ids of the filtered rows are exactly the keys whose row the filter accepts. |
| `Query.FindManyKeys` | apps/hotel-booking/src/APIs/Hotel/Base/HotelsServiceBase.cs:77-87 | Unpaged, the ids of the find-many list of a keyed table are exactly the keys whose row the filter accepts. |
| `Query.FirstByKey` | apps/hotel-booking/src/APIs/Room/Base/RoomsServiceBase.cs:48-53 | On a keyed table, `FirstOrDefault` of the rows filtered by `Id == id` is the row stored under `id`, or null. |
| `Query.FilterFilter` | apps/hotel-booking/src/APIs/Hotel/Base/HotelsServiceBase.cs:218-220 | Two where-filters in a row keep exactly what one filter on both conditions keeps, in the same order. |
| `Database.ResolveIsWhereContains` | apps/hotel-booking/src/APIs/Hotel/Base/HotelsServiceBase.cs:165-167 | On a keyed table, the ids of the rows `Where(t => ids.Contains(t.Id))` returns are exactly the resolved keys: the stored keys that are listed. |
| `Database.ReplaceRooms` | apps/hotel-booking/src/APIs/Hotel/Base/HotelsServiceBase.cs:236-255 | The hotel's rooms become exactly the given set: its other rooms lose only their hotel key, the given rooms gain only it, and `Keyed` and `Linked` are kept. |
| `Database.ReplaceBookings` | apps/hotel-booking/src/APIs/Room/Base/RoomsServiceBase.cs:253-272 | The room's bookings become exactly the given set: its other bookings lose only their room key, the given bookings gain only it, and `Keyed` and `Linked` are kept. |
| `HotelsService.CreateHotel` | apps/hotel-booking/src/APIs/Hotel/Base/HotelsServiceBase.cs:24-57 | The key is the input `Id`: a missing one fails with `NullKey`, a taken one with `DuplicateKey`. The new row carries the input's scalars. Exactly the listed existing rooms are added to the hotel, and only their hotel key changes; unknown ids are dropped. No other table changes, and `Keyed` and `Linked` are kept. |
| `HotelsService.CreateHotelRooms` | apps/hotel-booking/src/APIs/Hotel/Base/HotelsServiceBase.cs:35-44 | With no dangling keys, the new hotel's rooms and its DTO's room ids are exactly the listed rooms that exist. |
| `HotelsService.DeleteHotel` | apps/hotel-booking/src/APIs/Hotel/Base/HotelsServiceBase.cs:62-72 | An unknown id fails with `NotFound`. Otherwise exactly that hotel is removed, the other hotels and the other tables are unchanged, and the table shrinks by one. |
| `HotelsService.DeleteUndoesCreate` | apps/hotel-booking/src/APIs/Hotel/Base/HotelsServiceBase.cs:24-72 | Deleting a hotel just created succeeds and restores the hotel table. |
| `HotelsService.DeleteHotelLeavesDanglingRooms` | apps/hotel-booking/src/APIs/Hotel/Base/HotelsServiceBase.cs:62-72 | In the model without foreign-key constraints, deleting a hotel that has rooms leaves the store with dangling keys, since the service touches no room. |
| `HotelsService.Hotels` | apps/hotel-booking/src/APIs/Hotel/Base/HotelsServiceBase.cs:77-87 | Each returned DTO is a stored hotel the filter accepts, read together with its rooms. Unpaged, on a keyed store, the ids returned are exactly the hotels the filter accepts. |
| `HotelsService.HotelsMeta` | apps/hotel-booking/src/APIs/Hotel/Base/HotelsServiceBase.cs:92-97 | The count never exceeds the number of hotels. |
| `HotelsService.HotelsMetaIgnoresPaging` | apps/hotel-booking/src/APIs/Hotel/Base/HotelsServiceBase.cs:92-97 | The count does not depend on skip, take or sort. |
| `HotelsService.HotelsMetaCountsList` | apps/hotel-booking/src/APIs/Hotel/Base/HotelsServiceBase.cs:77-97 | The count equals the length of the unpaged list for the same filter. |
| `HotelsService.Hotel` | apps/hotel-booking/src/APIs/Hotel/Base/HotelsServiceBase.cs:102-114 | It fails only with `NotFound`. A hotel it returns has the requested id and a loaded room list. |
| `HotelsService.HotelFinds` | apps/hotel-booking/src/APIs/Hotel/Base/HotelsServiceBase.cs:102-114 | On a keyed store it succeeds exactly when the hotel exists. The result carries that hotel's scalars and exactly its rooms. |
| `HotelsService.UpdateHotel` | apps/hotel-booking/src/APIs/Hotel/Base/HotelsServiceBase.cs:119-147 | The stored hotel becomes `ToModel(input, id)`. Listed existing rooms are attached with only their hotel key changed, the old rooms stay, nothing else changes, and `Keyed` and `Linked` are kept. A missing hotel or a raced save gives `NotFound` exactly when the hotel is gone, and the conflict otherwise. |
| `HotelsService.UpdateHotelClearsOmittedFields` | apps/hotel-booking/src/APIs/Hotel/Base/HotelsServiceBase.cs:119-131 | A field the update input leaves null is cleared, and an omitted date becomes `MinValue`. |
| `HotelsService.ConnectRooms` | apps/hotel-booking/src/APIs/Hotel/Base/HotelsServiceBase.cs:152-181 | It fails with `NotFound` exactly when the hotel is missing or no listed room exists. Otherwise the hotel's rooms become the old rooms plus the found ones, the found rooms change only their hotel key, nothing else changes, and `Keyed` and `Linked` are kept. |
| `HotelsService.ConnectRoomsIdempotent` | apps/hotel-booking/src/APIs/Hotel/Base/HotelsServiceBase.cs:173-180 | Connecting the same ids a second time leaves the store unchanged. |
| `HotelsService.DisconnectRooms` | apps/hotel-booking/src/APIs/Hotel/Base/HotelsServiceBase.cs:186-208 | It fails only when the hotel is missing. Found rooms that were attached lose only their hotel key, and unknown or unattached ids change nothing. `Keyed` and `Linked` are kept. |
| `HotelsService.DisconnectUnattachedIsNoop` | apps/hotel-booking/src/APIs/Hotel/Base/HotelsServiceBase.cs:199-207 | Disconnecting ids none of which is attached returns the store unchanged. |
| `HotelsService.DisconnectUndoesConnect` | apps/hotel-booking/src/APIs/Hotel/Base/HotelsServiceBase.cs:152-208 | Connecting and then disconnecting the same ids leaves the hotel with its old rooms minus the listed ones. |
| `HotelsService.FindRooms` | apps/hotel-booking/src/APIs/Hotel/Base/HotelsServiceBase.cs:213-227 | Every returned room belongs to the given hotel and passes the filter. Its booking list is the empty initial list, since it is not included. Unpaged, on a keyed store, the ids returned are exactly the hotel's rooms the filter accepts. |
| `HotelsService.FoundRooms` | apps/hotel-booking/src/APIs/Hotel/Base/HotelsServiceBase.cs:218-224 | The rows `FindRooms` reads all belong to the hotel and pass the filter; unpaged, on a keyed store, their ids are exactly the hotel's accepted rooms. |
| `HotelsService.LoadedRoomsWhere` | apps/hotel-booking/src/APIs/Hotel/Base/HotelsServiceBase.cs:218-220 | On a keyed store, the ids of the rooms a filter keeps from the hotel's rooms are exactly the hotel's rooms the filter accepts. |
| `HotelsService.FindRoomsOfUnknownHotel` | apps/hotel-booking/src/APIs/Hotel/Base/HotelsServiceBase.cs:213-227 | With no dangling keys, an unknown hotel gives an empty list rather than `NotFound`. |
| `HotelsService.UpdateRooms` | apps/hotel-booking/src/APIs/Hotel/Base/HotelsServiceBase.cs:232-256 | It fails with `NotFound` exactly when the hotel is missing or no listed room exists. Otherwise the hotel's rooms become exactly the found rooms: the found rooms gain the hotel key, its other rooms lose it, no other column changes, and `Keyed` and `Linked` are kept. |
| `HotelsService.UpdateRoomsWithNoIdsFails` | apps/hotel-booking/src/APIs/Hotel/Base/HotelsServiceBase.cs:245-252 | An empty id list fails rather than clearing the rooms. |
| `RoomsService.RequestedHotelIsFirstMatch` | apps/hotel-booking/src/APIs/Room/Base/RoomsServiceBase.cs:48-53 | On a keyed store, the hotel key a new room gets is the key of the first hotel the `Id` query finds, and null when it finds none or no hotel is named. |
| `RoomsService.CreateRoom` | apps/hotel-booking/src/APIs/Room/Base/RoomsServiceBase.cs:24-66 | The key is the input `Id`: a missing one fails with `NullKey`, a taken one with `DuplicateKey`. The hotel is resolved leniently. Exactly the listed existing bookings are attached, and only their room key changes. No other table changes, and `Keyed` and `Linked` are kept. |
| `RoomsService.CreateRoomBookings` | apps/hotel-booking/src/APIs/Room/Base/RoomsServiceBase.cs:39-46 | With no dangling keys, the new room's bookings and its DTO's booking ids are exactly the listed bookings that exist. |
| `RoomsService.DeleteRoom` | apps/hotel-booking/src/APIs/Room/Base/RoomsServiceBase.cs:71-81 | An unknown id fails with `NotFound`. Otherwise exactly that room is removed and everything else is unchanged. |
| `RoomsService.DeleteUndoesCreate` | apps/hotel-booking/src/APIs/Room/Base/RoomsServiceBase.cs:24-81 | Deleting a room just created succeeds and restores the room table. |
| `RoomsService.DeleteRoomLeavesDanglingBookings` | apps/hotel-booking/src/APIs/Room/Base/RoomsServiceBase.cs:71-81 | In the model without foreign-key constraints, deleting a room that has bookings leaves the store with dangling keys, since the service touches no booking. |
| `RoomsService.Rooms` | apps/hotel-booking/src/APIs/Room/Base/RoomsServiceBase.cs:86-97 | Each returned DTO is a stored room the filter accepts, read together with its bookings. Unpaged, on a keyed store, the ids returned are exactly the rooms the filter accepts. |
| `RoomsService.RoomsMeta` | apps/hotel-booking/src/APIs/Room/Base/RoomsServiceBase.cs:102-107 | The count never exceeds the number of rooms. |
| `RoomsService.RoomsMetaIgnoresPaging` | apps/hotel-booking/src/APIs/Room/Base/RoomsServiceBase.cs:102-107 | The count does not depend on skip, take or sort. |
| `RoomsService.RoomsMetaCountsList` | apps/hotel-booking/src/APIs/Room/Base/RoomsServiceBase.cs:86-107 | The count equals the length of the unpaged list for the same filter. |
| `RoomsService.Room` | apps/hotel-booking/src/APIs/Room/Base/RoomsServiceBase.cs:112-124 | It fails only with `NotFound`. A room it returns has the requested id and a loaded booking list. |
| `RoomsService.RoomFinds` | apps/hotel-booking/src/APIs/Room/Base/RoomsServiceBase.cs:112-124 | On a keyed store it succeeds exactly when the room exists. The result carries that room's scalars, its hotel key and exactly its bookings. |
| `RoomsService.UpdateRoom` | apps/hotel-booking/src/APIs/Room/Base/RoomsServiceBase.cs:129-164 | The stored room becomes `ToModel(input, id)`. Listed existing bookings are attached with only their room key changed, the old bookings stay, and nothing else changes. A missing room or a raced save gives `NotFound` exactly when the room is gone, and the conflict otherwise. |
| `RoomsService.UpdateRoomClearsOmittedFields` | apps/hotel-booking/src/APIs/Room/Base/RoomsServiceBase.cs:129-147 | An update that omits the hotel detaches the room from every hotel, and a null price clears the price. |
| `RoomsService.ConnectBookings` | apps/hotel-booking/src/APIs/Room/Base/RoomsServiceBase.cs:169-198 | It fails with `NotFound` exactly when the room is missing or no listed booking exists. Otherwise the room's bookings become the old bookings plus the found ones, the found bookings change only their room key, and `Keyed` and `Linked` are kept. |
| `RoomsService.ConnectBookingsIdempotent` | apps/hotel-booking/src/APIs/Room/Base/RoomsServiceBase.cs:190-197 | Connecting the same ids a second time leaves the store unchanged. |
| `RoomsService.DisconnectBookings` | apps/hotel-booking/src/APIs/Room/Base/RoomsServiceBase.cs:203-225 | It fails only when the room is missing. Exactly the found bookings that were attached lose their room key, with no other column changed, and `Keyed` and `Linked` are kept. |
| `RoomsService.DisconnectUnattachedIsNoop` | apps/hotel-booking/src/APIs/Room/Base/RoomsServiceBase.cs:216-224 | Disconnecting ids none of which is attached returns the store unchanged. |
| `RoomsService.DisconnectUndoesConnect` | apps/hotel-booking/src/APIs/Room/Base/RoomsServiceBase.cs:169-225 | Connecting and then disconnecting the same ids leaves the room with its old bookings minus the listed ones. |
| `RoomsService.FindBookings` | apps/hotel-booking/src/APIs/Room/Base/RoomsServiceBase.cs:230-244 | Every returned booking has `RoomId` equal to the given id and passes the filter. Unpaged, on a keyed store, the ids returned are exactly the room's bookings the filter accepts. |
| `RoomsService.FoundBookings` | apps/hotel-booking/src/APIs/Room/Base/RoomsServiceBase.cs:235-241 | The rows `FindBookings` reads all belong to the room and pass the filter; unpaged, on a keyed store, their ids are exactly the room's accepted bookings. |
| `RoomsService.LoadedBookingsWhere` | apps/hotel-booking/src/APIs/Room/Base/RoomsServiceBase.cs:235-237 | On a keyed store, the ids of the bookings a filter keeps from the room's bookings are exactly the room's bookings the filter accepts. |
| `RoomsService.FindBookingsOfUnknownRoom` | apps/hotel-booking/src/APIs/Room/Base/RoomsServiceBase.cs:230-244 | With no dangling keys, an unknown room gives an empty list rather than `NotFound`. |
| `RoomsService.UpdateBookings` | apps/hotel-booking/src/APIs/Room/Base/RoomsServiceBase.cs:249-273 | It fails with `NotFound` exactly when the room is missing or no listed booking exists. Otherwise the room's bookings become exactly the found ones: they gain the room key, the room's other bookings lose it, no other column changes, and `Keyed` and `Linked` are kept. |
| `RoomsService.UpdateBookingsWithNoIdsFails` | apps/hotel-booking/src/APIs/Room/Base/RoomsServiceBase.cs:266-269 | An empty id list fails rather than clearing the bookings. |
| `RoomsService.GetHotel` | apps/hotel-booking/src/APIs/Room/Base/RoomsServiceBase.cs:278-289 | A missing room gives `NotFound`. A room with no hotel, or a dangling one, gives a null dereference. Otherwise the result is the room's hotel, whose room list holds just this room. |
| `RoomsService.GetHotelInvertsRoomsOf` | apps/hotel-booking/src/APIs/Room/Base/RoomsServiceBase.cs:278-289 | On a keyed store, `GetHotel` returns hotel `h` exactly when the room is one of `h`'s rooms and `h` exists. |
| `BookingsService.RequestedCustomerIsFirstMatch` | apps/hotel-booking/src/APIs/Booking/Base/BookingsServiceBase.cs:39-44 | On a keyed store, the customer key a new booking gets is the key of the first customer the `Id` query finds, and null when it finds none or no customer is named. |
| `BookingsService.RequestedRoomIsFirstMatch` | apps/hotel-booking/src/APIs/Booking/Base/BookingsServiceBase.cs:46-51 | On a keyed store, the room key a new booking gets is the key of the first room the `Id` query finds, and null when it finds none or no room is named. |
| `BookingsService.CreateBooking` | apps/hotel-booking/src/APIs/Booking/Base/BookingsServiceBase.cs:24-64 | The key is the input `Id`: a missing one fails with `NullKey`, a taken one with `DuplicateKey`. Customer and room are resolved independently and leniently, the booking joins only its room's collection, and `Keyed` and `Linked` are kept. |
| `BookingsService.DeleteBooking` | apps/hotel-booking/src/APIs/Booking/Base/BookingsServiceBase.cs:69-79 | An unknown id fails with `NotFound`. Otherwise only that booking is removed, and `Keyed` and `Linked` are kept. |
| `BookingsService.DeleteUndoesCreate` | apps/hotel-booking/src/APIs/Booking/Base/BookingsServiceBase.cs:24-79 | Deleting a booking just created restores the whole store. |
| `BookingsService.Bookings` | apps/hotel-booking/src/APIs/Booking/Base/BookingsServiceBase.cs:84-95 | Each returned DTO is the mapping of a stored booking the filter accepts. Unpaged, on a keyed store, the ids returned are exactly the bookings the filter accepts. |
| `BookingsService.BookingsMeta` | apps/hotel-booking/src/APIs/Booking/Base/BookingsServiceBase.cs:100-105 | The count never exceeds the number of bookings. |
| `BookingsService.BookingsMetaIgnoresPaging` | apps/hotel-booking/src/APIs/Booking/Base/BookingsServiceBase.cs:100-105 | The count does not depend on skip, take or sort. |
| `BookingsService.BookingsMetaCountsList` | apps/hotel-booking/src/APIs/Booking/Base/BookingsServiceBase.cs:84-105 | The count equals the length of the unpaged list for the same filter. |
| `BookingsService.Booking` | apps/hotel-booking/src/APIs/Booking/Base/BookingsServiceBase.cs:110-122 | It fails only with `NotFound`, and a booking it returns has the requested id. |
| `BookingsService.BookingFinds` | apps/hotel-booking/src/APIs/Booking/Base/BookingsServiceBase.cs:110-122 | On a keyed store it succeeds exactly when the booking exists, and the result carries that booking's fields and keys. |
| `BookingsService.UpdateBooking` | apps/hotel-booking/src/APIs/Booking/Base/BookingsServiceBase.cs:127-162 | The stored booking becomes `ToModel(input, id)` and nothing else changes. A missing booking or a raced save gives `NotFound` exactly when the booking is gone, and the conflict otherwise. |
| `BookingsService.UpdateBookingClearsOmittedFields` | apps/hotel-booking/src/APIs/Booking/Base/BookingsServiceBase.cs:127-145 | An update that sets only the price detaches the booking from its customer and room, clears `StartDate` and `EndDate`, and resets `CreatedAt` and `UpdatedAt` to `MinValue`. |
| `BookingsService.UpdateBookingKeepsUnknownRoom` | apps/hotel-booking/src/APIs/Booking/Base/BookingsServiceBase.cs:138-145 | In the model without foreign-key constraints, an update naming a room that does not exist stores that key unchecked, so the store has a dangling key. |
| `BookingsService.GetCustomer` | apps/hotel-booking/src/APIs/Booking/Base/BookingsServiceBase.cs:167-178 | A missing booking gives `NotFound`. A booking with no customer, or a dangling one, gives a null dereference. Otherwise the result is the booking's customer, whose booking list holds just this booking. |
| `BookingsService.GetCustomerFollowsKey` | apps/hotel-booking/src/APIs/Booking/Base/BookingsServiceBase.cs:167-178 | On a keyed store, `GetCustomer` returns customer `c` exactly when the booking's customer key is `c` and `c` exists. |
| `BookingsService.GetRoom` | apps/hotel-booking/src/APIs/Booking/Base/BookingsServiceBase.cs:183-194 | A missing booking gives `NotFound`. A booking with no room, or a dangling one, gives a null dereference. Otherwise the result is the booking's room, whose booking list holds just this booking. |
| `BookingsService.GetRoomInvertsBookingsOf` | apps/hotel-booking/src/APIs/Booking/Base/BookingsServiceBase.cs:183-194 | On a keyed store, `GetRoom` returns room `r` exactly when the booking is one of `r`'s bookings and `r` exists. |

## Left out

- Controllers, routing, authorization attributes and the mapping of exceptions to HTTP status codes are plumbing around the services.
- The customer service is not part of this model, since its implementation is not among the files. Only the customer mappers are modelled.
- `ApplyWhere`, `ApplySkip`, `ApplyTake` and `ApplyOrderBy` are defined in a file that is not part of this model. The where-filter is a predicate over one row. Skip, take and sort are parameters that may only drop or reorder rows, and that pass rows through when their argument is null. They run in the source's order: skip and take before the sort. No sort or page-partition property is claimed.
- The where-filter sees only the row's own columns. A filter over a related entity is not expressible.
- `double` and `DateTime` values are only copied, so they are opaque values. Validation attributes such as `[Range]` and `[StringLength]` are not modelled.
- The database's foreign-key constraints are not modelled. The context configures no relationship, so Entity Framework's convention makes these optional relations non-cascading (`ClientSetNull`), and the schema forbids a dangling key. With that schema, three saves would fail with a `DbUpdateException` that the services do not catch: deleting a hotel that has rooms, deleting a room that has bookings, and an update whose foreign key names no row (a room naming an unknown hotel, a booking naming an unknown room or customer). The model reports these as `Ok` with a dangling key.
- Key generation is not modelled, because the string keys declared at apps/hotel-booking/src/Infrastructure/Models/Hotel.cs:12-14 have no value generator configured. A failing insert is reduced to two errors: `NullKey` for an input without an `Id`, and `DuplicateKey` for a taken key.
- Entity Framework's change tracking is reduced to its effect on the store and on the returned DTO. The read-back after an insert returns the tracked entity, so a new hotel's or room's DTO lists the children just attached. A parent reached through a reference navigation lists only the one child the query tracked.
- A `DbUpdateConcurrencyException` cannot arise in sequential code, so whether a save raced is an input. Only how the handler translates the exception is modelled.
- `Query.FindMany`: beyond what `StoreOrder` fixes, the order of the rows in a DTO list is not stated.
- `HotelsService.Hotels`, `RoomsService.Rooms` and `BookingsService.Bookings` state which rows a paged result holds only as a subset of the filtered rows, because skip, take and sort are parameters. Unpaged, they state the exact set of keys.
