/** `CustomersExtensions`: the customer mappers between entity and DTO. */
module CustomersExtensions {
  import opened Wrappers
  import opened Values
  import opened Models
  import opened Dtos

  /** Projects a loaded customer onto its DTO: the scalars are copied and
      the `Bookings` navigation becomes the list of its bookings' ids. */
  function ToDto(model: CustomerModel): (dto: CustomerDto)
    ensures dto.id == model.row.id
    ensures dto.createdAt == model.row.createdAt && dto.updatedAt == model.row.updatedAt
    ensures dto.email == model.row.email && dto.phoneNumber == model.row.phoneNumber
    ensures dto.firstName == model.row.firstName && dto.lastName == model.row.lastName
    ensures dto.bookings.Some? <==> model.bookings.Some?
    ensures model.bookings.Some? ==>
      && |dto.bookings.value| == |model.bookings.value|
      && forall i :: 0 <= i < |model.bookings.value| ==> dto.bookings.value[i] == model.bookings.value[i].id
  {
    CustomerDto(
      bookings := match model.bookings
                  case None => None
                  case Some(bookings) => Some(Ids(bookings, BookingKey)),
      createdAt := model.row.createdAt,
      email := model.row.email,
      firstName := model.row.firstName,
      id := model.row.id,
      lastName := model.row.lastName,
      phoneNumber := model.row.phoneNumber,
      updatedAt := model.row.updatedAt)
  }

  /** Builds the entity an update writes: the key comes from the route, the
      nullable scalars are copied as given and the dates only when present;
      `Bookings` keeps its initial empty list. The customer entity is not
      part of this model; its `Bookings` initializer is taken to be an empty
      list, as in the hotel and room entities. */
  function ToModel(input: CustomerUpdateInput, id: Id): (model: CustomerModel)
    ensures model.row.id == id
    ensures model.row.email == input.email && model.row.phoneNumber == input.phoneNumber
    ensures model.row.firstName == input.firstName && model.row.lastName == input.lastName
    ensures input.createdAt.Some? ==> model.row.createdAt == input.createdAt.value
    ensures input.createdAt.None? ==> model.row.createdAt == MinDateTime
    ensures input.updatedAt.Some? ==> model.row.updatedAt == input.updatedAt.value
    ensures input.updatedAt.None? ==> model.row.updatedAt == MinDateTime
    ensures model.bookings == Some([])
  {
    var row := CustomerRow(
      createdAt := MinDateTime,
      email := input.email,
      firstName := input.firstName,
      id := id,
      lastName := input.lastName,
      phoneNumber := input.phoneNumber,
      updatedAt := MinDateTime);
    var row := if input.createdAt.Some? then row.(createdAt := input.createdAt.value) else row;
    var row := if input.updatedAt.Some? then row.(updatedAt := input.updatedAt.value) else row;
    CustomerModel(row, Some([]))
  }

  /** The input's own `Id` plays no part: only the route's key is used. */
  lemma ToModelIgnoresInputId(input: CustomerUpdateInput, id: Id, other: Option<Id>)
    ensures ToModel(input.(id := other), id) == ToModel(input, id)
  {
  }

  /** Mapping an update input to an entity and back to a DTO yields the
      route key, the input's scalars and an empty booking list. */
  lemma ToDtoOfToModel(input: CustomerUpdateInput, id: Id)
    ensures var dto := ToDto(ToModel(input, id));
      && dto.id == id
      && dto.email == input.email && dto.phoneNumber == input.phoneNumber
      && dto.firstName == input.firstName && dto.lastName == input.lastName
      && dto.createdAt == input.createdAt.GetOr(MinDateTime)
      && dto.updatedAt == input.updatedAt.GetOr(MinDateTime)
      && dto.bookings == Some([])
  {
  }
}
