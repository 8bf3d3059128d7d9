/** ItemMapper: copies between the item entity and its DTOs. Only id, name,
    description and availability are carried; the owner and the request are
    left unset. */
module ItemMapper {
  import opened Common
  import opened Model

  /** mapToItem: the owner is not set. */
  function MapToItem(itemDto: ItemDto): (r: Item)
    ensures r.id == itemDto.id && r.name == itemDto.name
    ensures r.description == itemDto.description && r.available == itemDto.available
    ensures r.owner.None?
  {
    Item(itemDto.id, itemDto.name, itemDto.description, itemDto.available, None)
  }

  /** mapToItemDto: neither owner nor request is set. */
  function MapToItemDto(item: Item): (r: ItemDto)
    ensures r.id == item.id && r.name == item.name
    ensures r.description == item.description && r.available == item.available
    ensures r.owner.None? && r.request.None?
  {
    ItemDto(item.id, item.name, item.description, item.available, None, None)
  }

  /** mapToFindByItemDto: the item's four fields with the bookings as given. */
  function MapToFindByItemDto(item: Item, lastBooking: Option<BookingDto>, nextBooking: Option<BookingDto>)
    : (r: FindItemByIdDto)
    ensures r.lastBooking == lastBooking && r.nextBooking == nextBooking
    ensures r.id == item.id && r.name == item.name
    ensures r.description == item.description && r.available == item.available
  {
    FindItemByIdDto(item.id, item.name, item.description, item.available, lastBooking, nextBooking)
  }

  /** A round trip keeps the four copied fields and drops the rest. */
  lemma RoundTrips(itemDto: ItemDto, item: Item)
    ensures MapToItemDto(MapToItem(itemDto)) == itemDto.(owner := None, request := None)
    ensures MapToItem(MapToItemDto(item)) == item.(owner := None)
  {
  }

  /** The view with bookings agrees with the plain DTO on every field the two
      share. */
  lemma FindByItemDtoExtendsItemDto(item: Item, lastBooking: Option<BookingDto>, nextBooking: Option<BookingDto>)
    ensures var d := MapToItemDto(item); var f := MapToFindByItemDto(item, lastBooking, nextBooking);
      d.id == f.id && d.name == f.name && d.description == f.description && d.available == f.available
  {
  }
}
