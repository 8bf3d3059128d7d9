/** The persisted entities of ShareIt and the view objects the services return.
    Times (LocalDateTime) are integers; an entity that refers to another holds
    that entity's value as it was when the reference was read. */
module Entities {
  import opened Common

  /** Booking status. */
  datatype Status = WAITING | APPROVED | REJECTED

  datatype User = User(id: int, name: string, email: string)

  datatype ItemRequest = ItemRequest(id: int, description: string, created: int, requestorId: int)

  datatype Item = Item(
    id: int,
    name: string,
    description: string,
    available: bool,
    request: Option<ItemRequest>,
    owner: User)

  datatype Booking = Booking(id: int, start: int, end: int, item: Item, booker: User, status: Status)

  datatype Comment = Comment(id: int, text: string, created: int, item: Item, author: User)

  /** BookingDto as the item views carry it: the booking id and the booker's id. */
  datatype BookingDto = BookingDto(id: int, bookerId: int)

  datatype CommentResponseDto = CommentResponseDto(id: int, text: string, created: int, authorName: string)

  /** An item with its nearest past and next approved bookings and its comments. */
  datatype ItemAllFieldsDto = ItemAllFieldsDto(
    id: int,
    name: string,
    description: string,
    available: bool,
    itemRequest: Option<int>,
    lastBooking: Option<BookingDto>,
    nextBooking: Option<BookingDto>,
    comments: seq<CommentResponseDto>)

  /** An item as listed under the request it answers. */
  datatype ItemGetOwnItemRequestDto = ItemGetOwnItemRequestDto(
    id: int, name: string, description: string, available: bool, requestId: Option<int>)

  datatype ItemRequestResponseDto = ItemRequestResponseDto(
    id: int, description: string, created: int, items: seq<ItemGetOwnItemRequestDto>)

  /** BookingMapper.mapFromBookingToBookingDto. */
  function ToBookingDto(b: Booking): BookingDto
  {
    BookingDto(b.id, b.booker.id)
  }

  /** CommentMapper.mapToCommentResponseDto. */
  function ToCommentDto(c: Comment): CommentResponseDto
  {
    CommentResponseDto(c.id, c.text, c.created, c.author.name)
  }

  /** ItemMapper.mapFromItemToItemGetOwnItemRequestDto. */
  function ToRequestItemDto(i: Item): ItemGetOwnItemRequestDto
  {
    ItemGetOwnItemRequestDto(i.id, i.name, i.description, i.available,
      if i.request.Some? then Some(i.request.value.id) else None)
  }

  /** Ids of a list of items, in list order. */
  function ItemIds(items: seq<Item>): seq<int>
  {
    seq(|items|, k requires 0 <= k < |items| => items[k].id)
  }

  /** Generated ids of a booking table: the row at index i has id i + 1. */
  ghost predicate BookingIds(table: seq<Booking>)
  {
    forall i :: 0 <= i < |table| ==> table[i].id == i + 1
  }

  ghost predicate ItemTableIds(table: seq<Item>)
  {
    forall i :: 0 <= i < |table| ==> table[i].id == i + 1
  }

  ghost predicate CommentIds(table: seq<Comment>)
  {
    forall i :: 0 <= i < |table| ==> table[i].id == i + 1
  }

  ghost predicate RequestIds(table: seq<ItemRequest>)
  {
    forall i :: 0 <= i < |table| ==> table[i].id == i + 1
  }
}

/** The plain model classes of the in-memory variant (user/model, item/model)
    and their transfer objects. */
module Model {
  import opened Common

  datatype User = User(id: int, name: string, email: string)

  datatype Item = Item(
    id: int,
    name: string,
    description: string,
    available: bool,
    owner: Option<User>)

  datatype UserDto = UserDto(id: int, name: string, email: string)

  datatype ItemDto = ItemDto(
    id: int,
    name: string,
    description: string,
    available: bool,
    owner: Option<User>,
    request: Option<string>)

  /** BookingDto as FindItemByIdDto carries it. */
  datatype BookingDto = BookingDto(id: int, start: int, end: int, bookerId: int)

  /** An item with its last and next bookings (FindItemByIdDto). */
  datatype FindItemByIdDto = FindItemByIdDto(
    id: int,
    name: string,
    description: string,
    available: bool,
    lastBooking: Option<BookingDto>,
    nextBooking: Option<BookingDto>)
}
