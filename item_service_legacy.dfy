/** The older ItemServiceImpl of the single-module tree. Its update, search,
    comment and last/next rules are those of ItemService; what differs is the
    error path of `save` for an unknown request and the four-way branch that
    builds each item view. */
module LegacyItemService {
  import opened Common
  import opened Entities
  import ItemService

  /** save as written: an unknown request id fails while the error message is
      built, because it reads the id of the item's request, which has not been
      set yet; the failure is a null dereference instead of NotFound. */
  function NewItem(users: map<int, User>, requests: seq<ItemRequest>, dto: ItemService.ItemDto, ownerId: int, id: int)
    : (r: Result<Item>)
    ensures ownerId !in users ==> r == Err(NotFound)
    ensures ownerId in users && dto.requestId.Some? && Row(requests, dto.requestId.value).None? ==> r == Err(NullPointer)
    ensures r.Ok? <==> ownerId in users && (dto.requestId.Some? ==> Row(requests, dto.requestId.value).Some?)
    ensures r.Ok? ==> r.value.owner == users[ownerId] && r.value.id == id
  {
    if ownerId !in users then Err(NotFound)
    else
      var item := Item(id, dto.name, dto.description, dto.available, None, users[ownerId]);
      if dto.requestId.None? then Ok(item)
      else
        match Row(requests, dto.requestId.value)
        case None =>
          // the message reads item.getItemRequest().getId() while the request is still unset
          if item.request.None? then Err(NullPointer) else Err(NotFound)
        case Some(request) => Ok(item.(request := Some(request)))
  }

  /** The two variants store the same item, and differ only in the exception
      an unknown request raises: NullPointer here, NotFound in ItemService. */
  lemma UnknownRequestIsNullDereference(users: map<int, User>, requests: seq<ItemRequest>, dto: ItemService.ItemDto,
                                        ownerId: int, id: int)
    ensures NewItem(users, requests, dto, ownerId, id).Ok? ==>
      NewItem(users, requests, dto, ownerId, id) == ItemService.NewItem(users, requests, dto, ownerId, id)
    ensures ownerId in users && dto.requestId.Some? && Row(requests, dto.requestId.value).None? ==>
      && NewItem(users, requests, dto, ownerId, id) == Err(NullPointer)
      && ItemService.NewItem(users, requests, dto, ownerId, id) == Err(NotFound)
  {
  }

  /** The four-way branch of findItemsDto: last and next are set to null or to
      the mapped booking according to which of the two selections is empty. */
  function ItemView(item: Item, bookings: seq<Booking>, comments: seq<Comment>, now: int): (r: ItemAllFieldsDto)
    ensures r.lastBooking.None? <==> ItemService.LastBooking(bookings, now).None?
    ensures r.nextBooking.None? <==> ItemService.NextBooking(bookings, now).None?
    ensures r == ItemService.ItemView(item, bookings, comments, now)
  {
    var lastOptional := ItemService.LastBooking(bookings, now);
    var nextOptional := ItemService.NextBooking(bookings, now);
    var itemComments := ItemService.CommentDtos(comments);
    var requestId := if item.request.Some? then Some(item.request.value.id) else None;
    if lastOptional.None? && nextOptional.None? then
      ItemAllFieldsDto(item.id, item.name, item.description, item.available, requestId, None, None, itemComments)
    else if lastOptional.Some? && nextOptional.None? then
      ItemAllFieldsDto(item.id, item.name, item.description, item.available, requestId,
        Some(ToBookingDto(lastOptional.value)), None, itemComments)
    else if lastOptional.None? then
      ItemAllFieldsDto(item.id, item.name, item.description, item.available, requestId,
        None, Some(ToBookingDto(nextOptional.value)), itemComments)
    else
      ItemAllFieldsDto(item.id, item.name, item.description, item.available, requestId,
        Some(ToBookingDto(lastOptional.value)), Some(ToBookingDto(nextOptional.value)), itemComments)
  }

  /** findItemsDto of the older variant: the bookings and comments are looked
      up by item id, and each view is built by the four-way branch. */
  function FindItemsDto(items: seq<Item>, table: seq<Booking>, comments: seq<Comment>, userId: int, now: int)
    : (r: seq<ItemAllFieldsDto>)
    ensures |r| == |items|
    ensures r == ItemService.FindItemsDto(items, table, comments, userId, now)
  {
    if items == [] then []
    else
      seq(|items|, k requires 0 <= k < |items| =>
        ItemView(items[k], ItemService.ItemBookings(table, items, userId, items[k].id),
          ItemService.ItemComments(comments, items[k].id), now))
  }

  /** searchByText of the older variant: a blank text gives nothing. */
  function SearchByText(items: seq<Item>, table: seq<Booking>, comments: seq<Comment>, text: string, userId: int, now: int)
    : (r: seq<ItemAllFieldsDto>)
    ensures IsBlank(text) ==> r == []
    ensures r == ItemService.SearchByText(items, table, comments, text, userId, now)
  {
    if IsBlank(text) then [] else FindItemsDto(ItemService.FindItemsByText(items, text), table, comments, userId, now)
  }
}
