/** `HotelsExtensions`: the hotel mappers between entity and DTO. */
module HotelsExtensions {
  import opened Wrappers
  import opened Values
  import opened Models
  import opened Dtos

  /** Projects a loaded hotel onto its DTO: the scalars are copied and the
      `Rooms` navigation becomes the list of its rooms' ids. */
  function ToDto(model: HotelModel): (dto: HotelDto)
    ensures dto.id == model.row.id
    ensures dto.createdAt == model.row.createdAt && dto.updatedAt == model.row.updatedAt
    ensures dto.location == model.row.location && dto.name == model.row.name
    ensures dto.rating == model.row.rating
    ensures dto.rooms.Some? <==> model.rooms.Some?
    ensures model.rooms.Some? ==>
      && |dto.rooms.value| == |model.rooms.value|
      && forall i :: 0 <= i < |model.rooms.value| ==> dto.rooms.value[i] == model.rooms.value[i].id
  {
    HotelDto(
      createdAt := model.row.createdAt,
      id := model.row.id,
      location := model.row.location,
      name := model.row.name,
      rating := model.row.rating,
      rooms := match model.rooms
               case None => None
               case Some(rooms) => Some(Ids(rooms, RoomKey)),
      updatedAt := model.row.updatedAt)
  }

  /** Builds the entity an update writes: the key comes from the route, the
      nullable scalars are copied as given (null included), the two dates
      only when present, and `Rooms` keeps its initial empty list. */
  function ToModel(input: HotelUpdateInput, id: Id): (model: HotelModel)
    ensures model.row.id == id
    ensures model.row.location == input.location && model.row.name == input.name
    ensures model.row.rating == input.rating
    ensures input.createdAt.Some? ==> model.row.createdAt == input.createdAt.value
    ensures input.createdAt.None? ==> model.row.createdAt == MinDateTime
    ensures input.updatedAt.Some? ==> model.row.updatedAt == input.updatedAt.value
    ensures input.updatedAt.None? ==> model.row.updatedAt == MinDateTime
    ensures model.rooms == Some([])
  {
    var row := HotelRow(
      createdAt := MinDateTime,
      id := id,
      location := input.location,
      name := input.name,
      rating := input.rating,
      updatedAt := MinDateTime);
    var row := if input.createdAt.Some? then row.(createdAt := input.createdAt.value) else row;
    var row := if input.updatedAt.Some? then row.(updatedAt := input.updatedAt.value) else row;
    HotelModel(row, Some([]))
  }

  /** The input's own `Id` plays no part: only the route's key is used. */
  lemma ToModelIgnoresInputId(input: HotelUpdateInput, id: Id, other: Option<Id>)
    ensures ToModel(input.(id := other), id) == ToModel(input, id)
  {
  }

  /** Mapping an update input to an entity and back to a DTO yields the
      route key, the input's nullable scalars and an empty room list. */
  lemma ToDtoOfToModel(input: HotelUpdateInput, id: Id)
    ensures var dto := ToDto(ToModel(input, id));
      && dto.id == id
      && dto.location == input.location && dto.name == input.name
      && dto.rating == input.rating
      && dto.createdAt == input.createdAt.GetOr(MinDateTime)
      && dto.updatedAt == input.updatedAt.GetOr(MinDateTime)
      && dto.rooms == Some([])
  {
  }
}
