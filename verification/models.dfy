/** The persisted entities (`Infrastructure/Models`). A row holds an
    entity's columns, foreign keys included; a model is a row together
    with the collection navigation the code has loaded for it. */
module Models {
  import opened Wrappers
  import opened Values

  datatype HotelRow = HotelRow(
    createdAt: DateTime,
    id: Id,
    location: Option<string>,
    name: Option<string>,
    rating: Option<Double>,
    updatedAt: DateTime)

  datatype RoomRow = RoomRow(
    createdAt: DateTime,
    hotelId: Option<Id>,
    id: Id,
    price: Option<Double>,
    roomNumber: Option<string>,
    typeField: Option<string>,
    updatedAt: DateTime)

  datatype BookingRow = BookingRow(
    createdAt: DateTime,
    customerId: Option<Id>,
    endDate: Option<DateTime>,
    id: Id,
    roomId: Option<Id>,
    startDate: Option<DateTime>,
    totalPrice: Option<Double>,
    updatedAt: DateTime)

  datatype CustomerRow = CustomerRow(
    createdAt: DateTime,
    email: Option<string>,
    firstName: Option<string>,
    id: Id,
    lastName: Option<string>,
    phoneNumber: Option<string>,
    updatedAt: DateTime)

  /** A hotel with its `Rooms` navigation (null when not a list). */
  datatype HotelModel = HotelModel(row: HotelRow, rooms: Option<seq<RoomRow>>)

  /** A room with its `Bookings` navigation. */
  datatype RoomModel = RoomModel(row: RoomRow, bookings: Option<seq<BookingRow>>)

  /** A customer with its `Bookings` navigation. */
  datatype CustomerModel = CustomerModel(row: CustomerRow, bookings: Option<seq<BookingRow>>)

  function HotelKey(r: HotelRow): Id { r.id }
  function RoomKey(r: RoomRow): Id { r.id }
  function BookingKey(r: BookingRow): Id { r.id }
  function CustomerKey(r: CustomerRow): Id { r.id }

  /** The rooms whose foreign key names hotel `h`. */
  function InHotel(h: Id): RoomRow -> bool {
    (r: RoomRow) => r.hotelId == Some(h)
  }

  /** The bookings whose foreign key names room `room`. */
  function InRoom(room: Id): BookingRow -> bool {
    (b: BookingRow) => b.roomId == Some(room)
  }
}
