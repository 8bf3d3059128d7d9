/** ItemServiceImpl of the server module: creating and patching items, the
    item views with their last and next approved bookings and their comments,
    text search, and the guard chain in front of a new comment. The user,
    request and booking tables are read-only here; the item and comment
    tables are the state this service writes. */
module ItemService {
  import opened Common
  import opened Entities
  import opened BookingQueries
  import Comparators

  /** The fields of an ItemDto that `save` reads. */
  datatype ItemDto = ItemDto(name: string, description: string, available: bool, requestId: Option<int>)

  /** The fields of an Item passed to `update`; an absent field is null. */
  datatype ItemPatch = ItemPatch(name: Option<string>, description: Option<string>, available: Option<bool>)

  /** save: the item to store under `id`, owned by `ownerId` and attached to the
      request the dto names; NotFound for an unknown owner or request. */
  function NewItem(users: map<int, User>, requests: seq<ItemRequest>, dto: ItemDto, ownerId: int, id: int)
    : (r: Result<Item>)
    ensures ownerId !in users ==> r == Err(NotFound)
    ensures r.Err? ==> r.error == NotFound
    ensures r.Ok? <==> ownerId in users && (dto.requestId.Some? ==> Row(requests, dto.requestId.value).Some?)
    ensures r.Ok? ==>
      && r.value.id == id
      && r.value.name == dto.name && r.value.description == dto.description && r.value.available == dto.available
      && r.value.owner == users[ownerId]
      && (dto.requestId.None? ==> r.value.request.None?)
      && (dto.requestId.Some? ==> r.value.request == Row(requests, dto.requestId.value))
  {
    if ownerId !in users then Err(NotFound)
    else
      var item := Item(id, dto.name, dto.description, dto.available, None, users[ownerId]);
      if dto.requestId.None? then Ok(item)
      else
        match Row(requests, dto.requestId.value)
        case None => Err(NotFound)
        case Some(request) => Ok(item.(request := Some(request)))
  }

  /** The field rules of `update`: a name or description replaces the stored one
      only when present and not blank, `available` only when present; id, owner
      and request are never touched. */
  function Merge(stored: Item, patch: ItemPatch): (r: Item)
    ensures r.id == stored.id && r.owner == stored.owner && r.request == stored.request
    ensures r.name != stored.name ==> patch.name == Some(r.name) && !IsBlank(r.name)
    ensures patch.name.Some? && !IsBlank(patch.name.value) ==> r.name == patch.name.value
    ensures r.description != stored.description ==> patch.description == Some(r.description) && !IsBlank(r.description)
    ensures patch.description.Some? && !IsBlank(patch.description.value) ==> r.description == patch.description.value
    ensures r.available != stored.available ==> patch.available == Some(r.available)
    ensures patch.available.Some? ==> r.available == patch.available.value
  {
    var named := if patch.name.Some? && !IsBlank(patch.name.value) then stored.(name := patch.name.value) else stored;
    var described :=
      if patch.description.Some? && !IsBlank(patch.description.value)
      then named.(description := patch.description.value) else named;
    if patch.available.Some? then described.(available := patch.available.value) else described
  }

  /** Applying the same patch twice gives the item applying it once gives. */
  lemma MergeIdempotent(stored: Item, patch: ItemPatch)
    ensures Merge(Merge(stored, patch), patch) == Merge(stored, patch)
  {
  }

  /** An all-null patch leaves the item as it was. */
  lemma MergeEmptyPatch(stored: Item)
    ensures Merge(stored, ItemPatch(None, None, None)) == stored
  {
  }

  /** A blank name or description in the patch is ignored like a null one. */
  lemma MergeIgnoresBlank(stored: Item, patch: ItemPatch)
    requires patch.name.Some? ==> IsBlank(patch.name.value)
    requires patch.description.Some? ==> IsBlank(patch.description.value)
    ensures Merge(stored, patch) == Merge(stored, patch.(name := None, description := None))
  {
  }

  /** The filter of getNextItem. */
  predicate IsNext(b: Booking, now: int) { b.start > now && b.status == Status.APPROVED }

  /** The filter of getLastItem. */
  predicate IsLast(b: Booking, now: int) { b.start < now && b.status == Status.APPROVED }

  /** getNextItem: the first approved booking starting after now, once the
      bookings are sorted by ascending start. */
  function NextBooking(bs: seq<Booking>, now: int): (r: Option<Booking>)
    ensures r.None? <==> forall b :: b in bs ==> !IsNext(b, now)
    ensures r.Some? ==> r.value in bs && IsNext(r.value, now)
    ensures r.Some? ==> forall b :: b in bs && IsNext(b, now) ==> r.value.start <= b.start
  {
    var p := (b: Booking) => IsNext(b, now);
    Comparators.FirstMatchOfSort(bs, Comparators.StartKey, p);
    First(Filter(Comparators.SortAsc(bs), p))
  }

  /** getLastItem: the first approved booking starting before now, once the
      bookings are sorted by descending start. */
  function LastBooking(bs: seq<Booking>, now: int): (r: Option<Booking>)
    ensures r.None? <==> forall b :: b in bs ==> !IsLast(b, now)
    ensures r.Some? ==> r.value in bs && IsLast(r.value, now)
    ensures r.Some? ==> forall b :: b in bs && IsLast(b, now) ==> r.value.start >= b.start
  {
    var p := (b: Booking) => IsLast(b, now);
    Comparators.FirstMatchOfSort(bs, Comparators.LatestFirstKey, p);
    First(Filter(Comparators.SortDesc(bs), p))
  }

  /** A booking that starts exactly now is neither the last nor the next one. */
  lemma StartingNowIsNeither(bs: seq<Booking>, now: int)
    requires forall b :: b in bs ==> b.start == now
    ensures LastBooking(bs, now).None? && NextBooking(bs, now).None?
  {
  }

  /** Optional.map(BookingMapper::mapFromBookingToBookingDto).orElse(null). */
  function DtoOf(b: Option<Booking>): (r: Option<BookingDto>)
    ensures r.None? <==> b.None?
    ensures r.Some? ==> r.value.id == b.value.id && r.value.bookerId == b.value.booker.id
  {
    if b.None? then None else Some(ToBookingDto(b.value))
  }

  /** The booking query findItemsDto runs: for a single item, the approved
      bookings of that item when the caller owns it (ordered by start);
      for several items, every booking of any of them. */
  function SelectedBookings(table: seq<Booking>, items: seq<Item>, userId: int): (r: seq<Booking>)
    ensures |items| == 1 ==> forall b :: b in r <==>
      b in table && b.item.id == items[0].id && b.item.owner.id == userId && b.status == Status.APPROVED
    ensures |items| != 1 ==> forall b :: b in r <==> b in table && exists k :: 0 <= k < |items| && b.item.id == items[k].id
  {
    var ids := ItemIds(items);
    if |items| == 1 then
      assert forall x :: x in ids <==> x == items[0].id by {
        assert ids == [items[0].id];
      }
      FindBookingsByItemId(table, ids, userId, Status.APPROVED)
    else
      assert forall x :: x in ids <==> exists k :: 0 <= k < |items| && x == items[k].id by {
        forall x ensures x in ids <==> exists k :: 0 <= k < |items| && x == items[k].id {
          if x in ids {
            var k :| 0 <= k < |ids| && ids[k] == x;
            assert x == items[k].id;
          }
          if exists k :: 0 <= k < |items| && x == items[k].id {
            var k :| 0 <= k < |items| && x == items[k].id;
            assert ids[k] == x;
          }
        }
      }
      FindBookingsByItemIn(table, ids)
  }

  /** groupingBy(booking.item) then getOrDefault(item): the selected bookings
      of one item, in the order the query returned them. */
  function ItemBookings(table: seq<Booking>, items: seq<Item>, userId: int, itemId: int): (r: seq<Booking>)
    ensures forall b :: b in r <==> b in SelectedBookings(table, items, userId) && b.item.id == itemId
  {
    Filter(SelectedBookings(table, items, userId), (b: Booking) => b.item.id == itemId)
  }

  /** findCommentsByItemInOrderByCreated then the group of one item: that
      item's comments, oldest first. */
  function ItemComments(table: seq<Comment>, itemId: int): (r: seq<Comment>)
    ensures forall c :: c in r <==> c in table && c.item.id == itemId
    ensures forall i, j :: 0 <= i < j < |r| ==> r[i].created <= r[j].created
  {
    var mine := Filter(table, (c: Comment) => c.item.id == itemId);
    Comparators.SortBySorted(mine, Comparators.CreatedKey);
    Comparators.SortCreatedMembers(mine);
    Comparators.SortBy(mine, Comparators.CreatedKey)
  }

  function CommentDtos(cs: seq<Comment>): (r: seq<CommentResponseDto>)
    ensures |r| == |cs|
    ensures forall k :: 0 <= k < |cs| ==> r[k] == ToCommentDto(cs[k])
  {
    seq(|cs|, k requires 0 <= k < |cs| => ToCommentDto(cs[k]))
  }

  /** mapToItemAllFieldsDto for one item, its bookings and its comments. */
  function ItemView(item: Item, bookings: seq<Booking>, comments: seq<Comment>, now: int): ItemAllFieldsDto
  {
    ItemAllFieldsDto(item.id, item.name, item.description, item.available,
      if item.request.Some? then Some(item.request.value.id) else None,
      DtoOf(LastBooking(bookings, now)), DtoOf(NextBooking(bookings, now)), CommentDtos(comments))
  }

  /** findItemsDto: one view per input item, in input order. Each view carries
      the item's own fields, its comments oldest first, and the last and next
      approved bookings among the bookings selected for it. */
  function FindItemsDto(items: seq<Item>, table: seq<Booking>, comments: seq<Comment>, userId: int, now: int)
    : (r: seq<ItemAllFieldsDto>)
    ensures items == [] ==> r == []
    ensures |r| == |items|
    ensures forall k :: 0 <= k < |r| ==>
      && r[k].id == items[k].id && r[k].name == items[k].name
      && r[k].description == items[k].description && r[k].available == items[k].available
      && r[k].itemRequest == (if items[k].request.Some? then Some(items[k].request.value.id) else None)
      && r[k].comments == CommentDtos(ItemComments(comments, items[k].id))
      && r[k].lastBooking == DtoOf(LastBooking(ItemBookings(table, items, userId, items[k].id), now))
      && r[k].nextBooking == DtoOf(NextBooking(ItemBookings(table, items, userId, items[k].id), now))
  {
    if items == [] then []
    else
      seq(|items|, k requires 0 <= k < |items| =>
        ItemView(items[k], ItemBookings(table, items, userId, items[k].id), ItemComments(comments, items[k].id), now))
  }

  /** A single item is shown with bookings only to its owner: anyone else sees
      neither a last nor a next booking. */
  lemma {:induction false} SingleItemHidesBookingsFromOthers(item: Item, table: seq<Booking>, comments: seq<Comment>,
                                                             userId: int, now: int)
    requires forall b :: b in table && b.item.id == item.id ==> b.item.owner.id == item.owner.id
    requires item.owner.id != userId
    ensures FindItemsDto([item], table, comments, userId, now)[0].lastBooking.None?
    ensures FindItemsDto([item], table, comments, userId, now)[0].nextBooking.None?
  {
    var group := ItemBookings(table, [item], userId, item.id);
    assert forall b :: b !in group;
  }

  /** With several items the bookings are not restricted to the caller: an
      approved booking of a listed item is seen by whoever lists it. */
  lemma {:induction false} ListedItemsShowEveryonesBookings(items: seq<Item>, table: seq<Booking>, comments: seq<Comment>,
                                                            userId: int, now: int, k: int, b: Booking)
    requires |items| > 1 && 0 <= k < |items|
    requires b in table && b.item.id == items[k].id && IsLast(b, now)
    ensures FindItemsDto(items, table, comments, userId, now)[k].lastBooking.Some?
  {
    assert b in SelectedBookings(table, items, userId);
    assert b in ItemBookings(table, items, userId, items[k].id);
  }

  /** findById: the view of one stored item; NotFound when there is none. */
  function FindById(items: seq<Item>, table: seq<Booking>, comments: seq<Comment>, userId: int, itemId: int, now: int)
    : (r: Result<ItemAllFieldsDto>)
    ensures r.Ok? <==> Row(items, itemId).Some?
    ensures r.Err? ==> r.error == NotFound
    ensures r.Ok? ==> r.value == FindItemsDto([Row(items, itemId).value], table, comments, userId, now)[0]
  {
    match Row(items, itemId)
    case None => Err(NotFound)
    case Some(item) => Ok(FindItemsDto([item], table, comments, userId, now)[0])
  }

  /** findItemsByText: available items whose upper-cased name or description
      contains the upper-cased text. */
  function FindItemsByText(items: seq<Item>, text: string): (r: seq<Item>)
    ensures forall i :: i in r <==>
      (i in items && i.available && (Contains(Upper(i.name), Upper(text)) || Contains(Upper(i.description), Upper(text))))
  {
    Filter(items, (i: Item) => i.available && (Contains(Upper(i.name), Upper(text)) || Contains(Upper(i.description), Upper(text))))
  }

  /** searchByText: nothing for a blank text, without any query; otherwise the
      views of the matching available items. */
  function SearchByText(items: seq<Item>, table: seq<Booking>, comments: seq<Comment>, text: string, userId: int, now: int)
    : (r: seq<ItemAllFieldsDto>)
    ensures IsBlank(text) ==> r == []
    ensures !IsBlank(text) ==> |r| == |FindItemsByText(items, text)|
    ensures !IsBlank(text) ==> forall k :: 0 <= k < |r| ==>
      && r[k].id == FindItemsByText(items, text)[k].id
      && r[k].name == FindItemsByText(items, text)[k].name
      && r[k].description == FindItemsByText(items, text)[k].description
    ensures forall k :: 0 <= k < |r| ==> r[k].available
  {
    if IsBlank(text) then []
    else
      var found := FindItemsByText(items, text);
      assert forall k :: 0 <= k < |found| ==> found[k].available by {
        forall k | 0 <= k < |found| ensures found[k].available {
          assert found[k] in found;
        }
      }
      FindItemsDto(found, table, comments, userId, now)
  }

  /** findAllByOwnerId: the caller's items, in id order. */
  function OwnItems(items: seq<Item>, userId: int): (r: seq<Item>)
    ensures forall i :: i in r <==> i in items && i.owner.id == userId
  {
    Filter(items, (i: Item) => i.owner.id == userId)
  }

  /** findItemsByUserId: one view per item of the caller, in id order. */
  function FindItemsByUserId(items: seq<Item>, table: seq<Booking>, comments: seq<Comment>, userId: int, now: int)
    : (r: seq<ItemAllFieldsDto>)
    ensures |r| == |OwnItems(items, userId)|
    ensures forall k :: 0 <= k < |r| ==> r[k].id == OwnItems(items, userId)[k].id
  {
    FindItemsDto(OwnItems(items, userId), table, comments, userId, now)
  }

  /** The guard chain of saveComment and the comment it stores under `id`:
      blank text first, then the user, then the item; the user must have made
      some booking, and the item must have a booking that is not REJECTED and
      started before now (made by anyone). */
  function NewComment(users: map<int, User>, items: seq<Item>, table: seq<Booking>, itemId: int, userId: int,
                      text: string, now: int, id: int): (r: Result<Comment>)
    ensures IsBlank(text) ==> r == Err(Validation)
    ensures !IsBlank(text) && userId !in users ==> r == Err(NotFound)
    ensures !IsBlank(text) && userId in users && Row(items, itemId).None? ==> r == Err(NotFound)
    ensures (!IsBlank(text) && userId in users && Row(items, itemId).Some?
             && (forall b :: b in table ==> b.booker.id != users[userId].id)) ==>
      r == Err(Validation)
    ensures (!IsBlank(text) && userId in users && Row(items, itemId).Some?
             && (exists b :: b in table && b.booker.id == users[userId].id)
             && (forall b :: b in table && b.item.id == itemId && b.status != Status.REJECTED ==> b.start >= now)) ==>
      r == Err(Validation)
    ensures r.Ok? <==>
      && !IsBlank(text)
      && userId in users
      && Row(items, itemId).Some?
      && (exists b :: b in table && b.booker.id == users[userId].id)
      && (exists b :: b in table && b.item.id == itemId && b.status != Status.REJECTED && b.start < now)
    ensures r.Ok? ==> r.value == Comment(id, text, now, Row(items, itemId).value, users[userId])
  {
    if IsBlank(text) then Err(Validation)
    else if userId !in users then Err(NotFound)
    else
      var user := users[userId];
      match Row(items, itemId)
      case None => Err(NotFound)
      case Some(item) =>
        var own := FindByBooker(table, user);
        var usable := FindByItemIdStatusNotInStartBefore(table, itemId, [Status.REJECTED], now);
        if own == [] then
          assert forall b :: b in table ==> b.booker.id != user.id by {
            forall b | b in table ensures b.booker.id != user.id {
              assert b !in own;
            }
          }
          Err(Validation)
        else if usable == [] then
          assert forall b :: b in table && b.item.id == itemId && b.status != Status.REJECTED ==> b.start >= now by {
            forall b | b in table && b.item.id == itemId && b.status != Status.REJECTED ensures b.start >= now {
              assert b !in usable;
            }
          }
          Err(Validation)
        else
          assert own[0] in own && usable[0] in usable;
          Ok(Comment(id, text, now, item, user))
  }

  /** The booking check is not tied to the commenting user: a user whose only
      bookings are of other items may comment once someone else's booking of
      this item, not REJECTED, has started. */
  lemma CommentEligibilityIsNotPerUser(users: map<int, User>, items: seq<Item>, table: seq<Booking>, itemId: int,
                                       userId: int, text: string, now: int, id: int, mine: Booking, theirs: Booking)
    requires !IsBlank(text) && userId in users && Row(items, itemId).Some?
    requires mine in table && mine.booker.id == users[userId].id && mine.item.id != itemId
    requires forall b :: b in table && b.booker.id == users[userId].id ==> b.item.id != itemId
    requires theirs in table && theirs.item.id == itemId && theirs.status != Status.REJECTED && theirs.start < now
    ensures NewComment(users, items, table, itemId, userId, text, now, id).Ok?
    ensures theirs.booker.id != users[userId].id
  {
  }

  /** The item and comment tables this service writes. */
  class ItemStore {
    var items: seq<Item>
    var comments: seq<Comment>

    ghost predicate Valid()
      reads this
    {
      ItemTableIds(items) && CommentIds(comments)
    }

    constructor ()
      ensures Valid() && items == [] && comments == []
    {
      items := [];
      comments := [];
    }

    /** save: on success the new item is appended with the next id. */
    method Save(users: map<int, User>, requests: seq<ItemRequest>, dto: ItemDto, ownerId: int) returns (r: Result<Item>)
      requires Valid()
      modifies this
      ensures Valid()
      ensures r == NewItem(users, requests, dto, ownerId, |old(items)| + 1)
      ensures r.Ok? ==> items == old(items) + [r.value]
      ensures r.Err? ==> items == old(items)
      ensures comments == old(comments)
    {
      r := NewItem(users, requests, dto, ownerId, |items| + 1);
      if r.Ok? {
        items := items + [r.value];
      }
    }

    /** update: the stored item is looked up, its owner checked, and the
        patch's fields set on it one by one before it is saved back. */
    method Update(patch: ItemPatch, itemId: int, userId: int) returns (r: Result<Item>)
      requires Valid()
      modifies this
      ensures Valid()
      ensures r.Ok? <==> Row(old(items), itemId).Some? && Row(old(items), itemId).value.owner.id == userId
      ensures r.Err? ==> r.error == NotFound && items == old(items)
      ensures r.Ok? ==> r.value == Merge(old(items)[itemId - 1], patch) && items == old(items)[itemId - 1 := r.value]
      ensures comments == old(comments)
    {
      if !(1 <= itemId <= |items|) {
        return Err(NotFound);
      }
      var updated := items[itemId - 1];
      if updated.owner.id != userId {
        return Err(NotFound);
      }
      if patch.name.Some? && !IsBlank(patch.name.value) {
        updated := updated.(name := patch.name.value);
      }
      if patch.description.Some? && !IsBlank(patch.description.value) {
        updated := updated.(description := patch.description.value);
      }
      if patch.available.Some? {
        updated := updated.(available := patch.available.value);
      }
      items := items[itemId - 1 := updated];
      r := Ok(updated);
    }

    /** saveComment: on success the comment is appended with the next id and
        returned as its response view; nothing is saved on any failure. */
    method SaveComment(users: map<int, User>, table: seq<Booking>, itemId: int, userId: int, text: string, now: int)
      returns (r: Result<CommentResponseDto>)
      requires Valid()
      modifies this
      ensures Valid()
      ensures var c := NewComment(users, old(items), table, itemId, userId, text, now, |old(comments)| + 1);
        && (c.Ok? ==> r == Ok(ToCommentDto(c.value)) && comments == old(comments) + [c.value])
        && (c.Err? ==> r == Err(c.error) && comments == old(comments))
      ensures items == old(items)
    {
      var c := NewComment(users, items, table, itemId, userId, text, now, |comments| + 1);
      if c.Ok? {
        comments := comments + [c.value];
        r := Ok(ToCommentDto(c.value));
      } else {
        r := Err(c.error);
      }
    }
  }
}
