/** The externally shaped records (the `Dtos` folders): what the services return
    and what they accept as create and update input. A relation appears in
    an output record as an id or a list of ids. */
module Dtos {
  import opened Wrappers
  import opened Values

  datatype HotelDto = HotelDto(
    createdAt: DateTime,
    id: Id,
    location: Option<string>,
    name: Option<string>,
    rating: Option<Double>,
    rooms: Option<seq<Id>>,
    updatedAt: DateTime)

  datatype RoomDto = RoomDto(
    bookings: Option<seq<Id>>,
    createdAt: DateTime,
    hotel: Option<Id>,
    id: Id,
    price: Option<Double>,
    roomNumber: Option<string>,
    typeField: Option<string>,
    updatedAt: DateTime)

  datatype BookingDto = BookingDto(
    createdAt: DateTime,
    customer: Option<Id>,
    endDate: Option<DateTime>,
    id: Id,
    room: Option<Id>,
    startDate: Option<DateTime>,
    totalPrice: Option<Double>,
    updatedAt: DateTime)

  datatype CustomerDto = CustomerDto(
    bookings: Option<seq<Id>>,
    createdAt: DateTime,
    email: Option<string>,
    firstName: Option<string>,
    id: Id,
    lastName: Option<string>,
    phoneNumber: Option<string>,
    updatedAt: DateTime)

  /** Create inputs name related records by whole DTOs, of which only the
      `Id` is read. */
  datatype HotelCreateInput = HotelCreateInput(
    createdAt: DateTime,
    id: Option<Id>,
    location: Option<string>,
    name: Option<string>,
    rating: Option<Double>,
    rooms: Option<seq<RoomDto>>,
    updatedAt: DateTime)

  datatype RoomCreateInput = RoomCreateInput(
    bookings: Option<seq<BookingDto>>,
    createdAt: DateTime,
    hotel: Option<HotelDto>,
    id: Option<Id>,
    price: Option<Double>,
    roomNumber: Option<string>,
    typeField: Option<string>,
    updatedAt: DateTime)

  datatype BookingCreateInput = BookingCreateInput(
    createdAt: DateTime,
    customer: Option<CustomerDto>,
    endDate: Option<DateTime>,
    id: Option<Id>,
    room: Option<RoomDto>,
    startDate: Option<DateTime>,
    totalPrice: Option<Double>,
    updatedAt: DateTime)

  /** Update inputs: every field nullable, relations given by id. */
  datatype HotelUpdateInput = HotelUpdateInput(
    createdAt: Option<DateTime>,
    id: Option<Id>,
    location: Option<string>,
    name: Option<string>,
    rating: Option<Double>,
    rooms: Option<seq<Id>>,
    updatedAt: Option<DateTime>)

  datatype RoomUpdateInput = RoomUpdateInput(
    bookings: Option<seq<Id>>,
    createdAt: Option<DateTime>,
    hotel: Option<Id>,
    id: Option<Id>,
    price: Option<Double>,
    roomNumber: Option<string>,
    typeField: Option<string>,
    updatedAt: Option<DateTime>)

  datatype BookingUpdateInput = BookingUpdateInput(
    createdAt: Option<DateTime>,
    customer: Option<Id>,
    endDate: Option<DateTime>,
    id: Option<Id>,
    room: Option<Id>,
    startDate: Option<DateTime>,
    totalPrice: Option<Double>,
    updatedAt: Option<DateTime>)

  datatype CustomerUpdateInput = CustomerUpdateInput(
    createdAt: Option<DateTime>,
    email: Option<string>,
    firstName: Option<string>,
    id: Option<Id>,
    lastName: Option<string>,
    phoneNumber: Option<string>,
    updatedAt: Option<DateTime>)

  function HotelDtoKey(d: HotelDto): Id { d.id }
  function RoomDtoKey(d: RoomDto): Id { d.id }
  function BookingDtoKey(d: BookingDto): Id { d.id }
}
