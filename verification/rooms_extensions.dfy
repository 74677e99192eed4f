/** `RoomsExtensions`: the room mappers between entity and DTO. */
module RoomsExtensions {
  import opened Wrappers
  import opened Values
  import opened Models
  import opened Dtos

  /** Projects a loaded room onto its DTO: the scalars are copied, the
      hotel appears as the `HotelId` foreign key and the `Bookings`
      navigation becomes the list of its bookings' ids. */
  function ToDto(model: RoomModel): (dto: RoomDto)
    ensures dto.id == model.row.id && dto.hotel == model.row.hotelId
    ensures dto.createdAt == model.row.createdAt && dto.updatedAt == model.row.updatedAt
    ensures dto.price == model.row.price && dto.roomNumber == model.row.roomNumber
    ensures dto.typeField == model.row.typeField
    ensures dto.bookings.Some? <==> model.bookings.Some?
    ensures model.bookings.Some? ==>
      && |dto.bookings.value| == |model.bookings.value|
      && forall i :: 0 <= i < |model.bookings.value| ==> dto.bookings.value[i] == model.bookings.value[i].id
  {
    RoomDto(
      bookings := match model.bookings
                  case None => None
                  case Some(bookings) => Some(Ids(bookings, BookingKey)),
      createdAt := model.row.createdAt,
      hotel := model.row.hotelId,
      id := model.row.id,
      price := model.row.price,
      roomNumber := model.row.roomNumber,
      typeField := model.row.typeField,
      updatedAt := model.row.updatedAt)
  }

  /** Builds the entity an update writes: the key comes from the route, the
      nullable scalars are copied as given, the dates and the hotel key only
      when present, and `Bookings` keeps its initial empty list. */
  function ToModel(input: RoomUpdateInput, id: Id): (model: RoomModel)
    ensures model.row.id == id
    ensures model.row.price == input.price && model.row.roomNumber == input.roomNumber
    ensures model.row.typeField == input.typeField
    ensures input.createdAt.Some? ==> model.row.createdAt == input.createdAt.value
    ensures input.createdAt.None? ==> model.row.createdAt == MinDateTime
    ensures input.hotel.Some? ==> model.row.hotelId == input.hotel
    ensures input.hotel.None? ==> model.row.hotelId == None
    ensures input.updatedAt.Some? ==> model.row.updatedAt == input.updatedAt.value
    ensures input.updatedAt.None? ==> model.row.updatedAt == MinDateTime
    ensures model.bookings == Some([])
  {
    var row := RoomRow(
      createdAt := MinDateTime,
      hotelId := None,
      id := id,
      price := input.price,
      roomNumber := input.roomNumber,
      typeField := input.typeField,
      updatedAt := MinDateTime);
    var row := if input.createdAt.Some? then row.(createdAt := input.createdAt.value) else row;
    var row := if input.hotel.Some? then row.(hotelId := input.hotel) else row;
    var row := if input.updatedAt.Some? then row.(updatedAt := input.updatedAt.value) else row;
    RoomModel(row, Some([]))
  }

  /** The input's own `Id` plays no part: only the route's key is used. */
  lemma ToModelIgnoresInputId(input: RoomUpdateInput, id: Id, other: Option<Id>)
    ensures ToModel(input.(id := other), id) == ToModel(input, id)
  {
  }

  /** Mapping an update input to an entity and back to a DTO yields the
      route key, the input's scalars and hotel, and an empty booking list. */
  lemma ToDtoOfToModel(input: RoomUpdateInput, id: Id)
    ensures var dto := ToDto(ToModel(input, id));
      && dto.id == id
      && dto.hotel == input.hotel
      && dto.price == input.price && dto.roomNumber == input.roomNumber
      && dto.typeField == input.typeField
      && dto.createdAt == input.createdAt.GetOr(MinDateTime)
      && dto.updatedAt == input.updatedAt.GetOr(MinDateTime)
      && dto.bookings == Some([])
  {
  }
}
