/** `BookingsExtensions`: the booking mappers between entity and DTO. */
module BookingsExtensions {
  import opened Wrappers
  import opened Values
  import opened Models
  import opened Dtos

  /** Projects a booking onto its DTO: the scalars are copied and the
      customer and room appear as their foreign keys. */
  function ToDto(row: BookingRow): (dto: BookingDto)
    ensures dto.id == row.id
    ensures dto.createdAt == row.createdAt && dto.updatedAt == row.updatedAt
    ensures dto.startDate == row.startDate && dto.endDate == row.endDate
    ensures dto.totalPrice == row.totalPrice
    ensures dto.customer == row.customerId && dto.room == row.roomId
  {
    BookingDto(
      createdAt := row.createdAt,
      customer := row.customerId,
      endDate := row.endDate,
      id := row.id,
      room := row.roomId,
      startDate := row.startDate,
      totalPrice := row.totalPrice,
      updatedAt := row.updatedAt)
  }

  /** `Select(x => x.ToDto())` over a list of bookings: one DTO per row,
      in order, each with the row's key. */
  function ToDtos(rows: seq<BookingRow>): (dtos: seq<BookingDto>)
    ensures |dtos| == |rows|
    ensures forall i :: 0 <= i < |rows| ==> dtos[i] == ToDto(rows[i])
    ensures Ids(dtos, BookingDtoKey) == Ids(rows, BookingKey)
  {
    var dtos := seq(|rows|, i requires 0 <= i < |rows| => ToDto(rows[i]));
    assert forall i :: 0 <= i < |rows| ==> BookingDtoKey(dtos[i]) == BookingKey(rows[i]);
    dtos
  }

  /** Builds the entity an update writes: the key comes from the route, the
      nullable scalars are copied as given, the dates and the two foreign
      keys only when present. */
  function ToModel(input: BookingUpdateInput, id: Id): (row: BookingRow)
    ensures row.id == id
    ensures row.endDate == input.endDate && row.startDate == input.startDate
    ensures row.totalPrice == input.totalPrice
    ensures input.createdAt.Some? ==> row.createdAt == input.createdAt.value
    ensures input.createdAt.None? ==> row.createdAt == MinDateTime
    ensures input.customer.Some? ==> row.customerId == input.customer
    ensures input.customer.None? ==> row.customerId == None
    ensures input.room.Some? ==> row.roomId == input.room
    ensures input.room.None? ==> row.roomId == None
    ensures input.updatedAt.Some? ==> row.updatedAt == input.updatedAt.value
    ensures input.updatedAt.None? ==> row.updatedAt == MinDateTime
  {
    var row := BookingRow(
      createdAt := MinDateTime,
      customerId := None,
      endDate := input.endDate,
      id := id,
      roomId := None,
      startDate := input.startDate,
      totalPrice := input.totalPrice,
      updatedAt := MinDateTime);
    var row := if input.createdAt.Some? then row.(createdAt := input.createdAt.value) else row;
    var row := if input.customer.Some? then row.(customerId := input.customer) else row;
    var row := if input.room.Some? then row.(roomId := input.room) else row;
    var row := if input.updatedAt.Some? then row.(updatedAt := input.updatedAt.value) else row;
    row
  }

  /** The input's own `Id` plays no part: only the route's key is used. */
  lemma ToModelIgnoresInputId(input: BookingUpdateInput, id: Id, other: Option<Id>)
    ensures ToModel(input.(id := other), id) == ToModel(input, id)
  {
  }

  /** Mapping an update input to an entity and back to a DTO yields the
      route key and the input's dates, price, customer and room. */
  lemma ToDtoOfToModel(input: BookingUpdateInput, id: Id)
    ensures var dto := ToDto(ToModel(input, id));
      && dto.id == id
      && dto.startDate == input.startDate && dto.endDate == input.endDate
      && dto.totalPrice == input.totalPrice
      && dto.customer == input.customer && dto.room == input.room
      && dto.createdAt == input.createdAt.GetOr(MinDateTime)
      && dto.updatedAt == input.updatedAt.GetOr(MinDateTime)
  {
  }
}
