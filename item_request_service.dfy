/** ItemRequestServiceImpl: saving a request for an item, and the views that
    list requests together with the items offered in answer to them. The
    grouping of answering items by request is a map whose iteration order is
    not promised, so the views built by iterating it are methods. */
module ItemRequestService {
  import opened Common
  import opened Entities

  /** `itemRequest in :requests`: the item answers one of the listed requests
      (entities compare by id). */
  predicate Answers(i: Item, requests: seq<ItemRequest>)
  {
    i.request.Some? && exists q :: q in requests && q.id == i.request.value.id
  }

  /** findItemByItemRequestIn. */
  function FindItemByItemRequestIn(items: seq<Item>, requests: seq<ItemRequest>): (r: seq<Item>)
    ensures forall i :: i in r <==> i in items && Answers(i, requests)
  {
    Filter(items, AnswersOneOf(requests))
  }

  /** The filter of findItemByItemRequestIn. */
  function AnswersOneOf(requests: seq<ItemRequest>): Item -> bool
  {
    (i: Item) => Answers(i, requests)
  }

  /** The items whose request is `q`, in list order. */
  function ItemsOf(found: seq<Item>, q: ItemRequest): (r: seq<Item>)
    ensures forall i :: i in r <==> i in found && i.request == Some(q)
  {
    if found == [] then []
    else
      assert found == [found[0]] + found[1..];
      (if found[0].request == Some(q) then [found[0]] else []) + ItemsOf(found[1..], q)
  }

  /** Collectors.groupingBy(Item::getItemRequest): each request some item
      answers, mapped to the items answering it in list order. */
  function Group(found: seq<Item>): (r: map<ItemRequest, seq<Item>>)
    requires forall k :: 0 <= k < |found| ==> found[k].request.Some?
    ensures forall q :: q in r ==> r[q] != [] && forall i :: i in r[q] ==> i in found && i.request == Some(q)
    ensures forall k :: 0 <= k < |found| ==> found[k].request.value in r && found[k] in r[found[k].request.value]
  {
    if found == [] then map[]
    else
      var rest := Group(found[1..]);
      var q := found[0].request.value;
      rest[q := [found[0]] + (if q in rest then rest[q] else [])]
  }

  /** A request is a key of the grouping exactly when some item answers it,
      and its group is every such item, in list order. */
  lemma {:induction false} GroupIsItemsOf(found: seq<Item>, q: ItemRequest)
    requires forall k :: 0 <= k < |found| ==> found[k].request.Some?
    ensures q in Group(found) <==> ItemsOf(found, q) != []
    ensures q in Group(found) ==> Group(found)[q] == ItemsOf(found, q)
  {
    if found != [] {
      GroupIsItemsOf(found[1..], q);
    }
  }

  /** The test that an item answers `q`. */
  function AnswersRequest(q: ItemRequest): Item -> bool
  {
    (i: Item) => i.request == Some(q)
  }

  /** The items of a request are the list filtered by that request. */
  lemma {:induction false} ItemsOfIsFilter(s: seq<Item>, q: ItemRequest)
    ensures ItemsOf(s, q) == Filter(s, AnswersRequest(q))
  {
    if s != [] {
      ItemsOfIsFilter(s[1..], q);
    }
  }

  /** Narrowing the list to items that include every item of request `q`
      leaves the items of `q` as they were. */
  lemma ItemsOfFilter(s: seq<Item>, p: Item -> bool, q: ItemRequest)
    requires forall i :: i in s && i.request == Some(q) ==> p(i)
    ensures ItemsOf(Filter(s, p), q) == ItemsOf(s, q)
  {
    var answers := AnswersRequest(q);
    assert forall k :: 0 <= k < |s| && answers(s[k]) ==> p(s[k]) by {
      forall k | 0 <= k < |s| && answers(s[k]) ensures p(s[k]) {
        assert s[k] in s;
      }
    }
    FilterNarrowed(s, p, answers);
    ItemsOfIsFilter(Filter(s, p), q);
    ItemsOfIsFilter(s, q);
  }

  /** findItemsToItemRequests: the answering items of the given requests,
      grouped by request. */
  function FindItemsToItemRequests(items: seq<Item>, requests: seq<ItemRequest>): (r: map<ItemRequest, seq<Item>>)
    ensures forall q :: q in r ==> r[q] != [] && forall i :: i in r[q] ==> i in items && i.request == Some(q)
    ensures forall q :: q in r ==> exists p :: p in requests && p.id == q.id
    ensures forall i :: i in items && Answers(i, requests) ==> i.request.value in r && i in r[i.request.value]
  {
    var found := FindItemByItemRequestIn(items, requests);
    assert forall k :: 0 <= k < |found| ==> found[k] in found;
    var r := Group(found);
    assert forall q :: q in r ==> exists p :: p in requests && p.id == q.id by {
      forall q | q in r ensures exists p :: p in requests && p.id == q.id {
        var i := r[q][0];
        assert i in r[q];
        assert i in found;
      }
    }
    assert forall i :: i in items && Answers(i, requests) ==> i.request.value in r && i in r[i.request.value] by {
      forall i | i in items && Answers(i, requests) ensures i.request.value in r && i in r[i.request.value] {
        assert i in found;
        var k :| 0 <= k < |found| && found[k] == i;
      }
    }
    r
  }

  function ItemDtos(items: seq<Item>): (r: seq<ItemGetOwnItemRequestDto>)
    ensures |r| == |items|
    ensures forall k :: 0 <= k < |items| ==> r[k] == ToRequestItemDto(items[k])
  {
    seq(|items|, k requires 0 <= k < |items| => ToRequestItemDto(items[k]))
  }

  /** mapToItemRequestResponseDtoWithItemId. */
  function ResponseDto(q: ItemRequest, items: seq<Item>): ItemRequestResponseDto
  {
    ItemRequestResponseDto(q.id, q.description, q.created, ItemDtos(items))
  }

  /** map.getOrDefault(q, Collections.emptyList()). */
  function GroupOrEmpty(m: map<ItemRequest, seq<Item>>, q: ItemRequest): seq<Item>
  {
    if q in m then m[q] else []
  }

  /** For a request passed to findItemsToItemRequests, the grouping holds
      exactly the items answering it, in item order, or nothing when none does. */
  lemma GroupOfListedRequest(items: seq<Item>, requests: seq<ItemRequest>, q: ItemRequest)
    requires q in requests
    ensures q in FindItemsToItemRequests(items, requests) <==> ItemsOf(items, q) != []
    ensures GroupOrEmpty(FindItemsToItemRequests(items, requests), q) == ItemsOf(items, q)
  {
    var found := FindItemByItemRequestIn(items, requests);
    assert forall k :: 0 <= k < |found| ==> found[k] in found;
    GroupIsItemsOf(found, q);
    ItemsOfFilter(items, AnswersOneOf(requests), q);
  }

  /** findItemRequestsByRequestorId: the user's requests, in repository order. */
  function RequestsBy(requests: seq<ItemRequest>, requestorId: int): (r: seq<ItemRequest>)
    ensures forall q :: q in r <==> q in requests && q.requestorId == requestorId
  {
    Filter(requests, (q: ItemRequest) => q.requestorId == requestorId)
  }

  /** findItemRequestsByRequestorIdNot: every other user's requests. */
  function RequestsNotBy(requests: seq<ItemRequest>, requestorId: int): (r: seq<ItemRequest>)
    ensures forall q :: q in r <==> q in requests && q.requestorId != requestorId
  {
    Filter(requests, (q: ItemRequest) => q.requestorId != requestorId)
  }

  /** findOwnItemRequests: NotFound for an unknown user; otherwise one view per
      request the user made, in repository order, each listing the items that
      answer that request in item order (none when no item does). */
  function FindOwnItemRequests(users: map<int, User>, requests: seq<ItemRequest>, items: seq<Item>, userId: int)
    : (r: Result<seq<ItemRequestResponseDto>>)
    ensures r.Ok? <==> userId in users
    ensures r.Err? ==> r.error == NotFound
    ensures r.Ok? ==>
      var own := RequestsBy(requests, users[userId].id);
      && |r.value| == |own|
      && forall k :: 0 <= k < |own| ==>
        r.value[k] == ResponseDto(own[k], ItemsOf(items, own[k]))
  {
    if userId !in users then Err(NotFound)
    else
      var own := RequestsBy(requests, users[userId].id);
      var m := FindItemsToItemRequests(items, own);
      assert forall k :: 0 <= k < |own| ==> GroupOrEmpty(m, own[k]) == ItemsOf(items, own[k]) by {
        forall k | 0 <= k < |own| ensures GroupOrEmpty(m, own[k]) == ItemsOf(items, own[k]) {
          assert own[k] in own;
          GroupOfListedRequest(items, own, own[k]);
        }
      }
      Ok(seq(|own|, k requires 0 <= k < |own| => ResponseDto(own[k], GroupOrEmpty(m, own[k]))))
  }

  /** mapToDto: one view per entry of the grouping, in an order the map does
      not promise; every entry appears and nothing else does. */
  method MapToDto(m: map<ItemRequest, seq<Item>>) returns (r: seq<ItemRequestResponseDto>)
    ensures |r| == |m|
    ensures forall q :: q in m ==> ResponseDto(q, m[q]) in r
    ensures forall k :: 0 <= k < |r| ==> exists q :: q in m && r[k] == ResponseDto(q, m[q])
  {
    var keys := KeysOf(m);
    r := seq(|keys|, k requires 0 <= k < |keys| => ResponseDto(keys[k], m[keys[k]]));
    forall q | q in m ensures ResponseDto(q, m[q]) in r {
      var k :| 0 <= k < |keys| && keys[k] == q;
      assert r[k] == ResponseDto(q, m[q]);
    }
    forall k | 0 <= k < |r| ensures exists q :: q in m && r[k] == ResponseDto(q, m[q]) {
      assert keys[k] in keys;
    }
  }

  /** The request table written by saveItemRequest. */
  class ItemRequestStore {
    var requests: seq<ItemRequest>

    ghost predicate Valid()
      reads this
    {
      RequestIds(requests)
    }

    constructor ()
      ensures Valid() && requests == []
    {
      requests := [];
    }

    /** saveItemRequest: a null or blank description is refused before the
        user is looked up; an unknown user is NotFound; otherwise the request is
        stored with the next id, the given description, `now` and the user. */
    method SaveItemRequest(users: map<int, User>, description: Option<string>, userId: int, now: int)
      returns (r: Result<ItemRequest>)
      requires Valid()
      modifies this
      ensures Valid()
      ensures description.None? || IsBlank(description.value) ==> r == Err(Validation)
      ensures description.Some? && !IsBlank(description.value) && userId !in users ==> r == Err(NotFound)
      ensures r.Ok? <==> description.Some? && !IsBlank(description.value) && userId in users
      ensures r.Ok? ==>
        && r.value == ItemRequest(|old(requests)| + 1, description.value, now, users[userId].id)
        && requests == old(requests) + [r.value]
      ensures r.Err? ==> requests == old(requests)
    {
      if description.None? || IsBlank(description.value) {
        return Err(Validation);
      }
      if userId !in users {
        return Err(NotFound);
      }
      var requestor := users[userId];
      var itemRequest := ItemRequest(|requests| + 1, description.value, now, requestor.id);
      requests := requests + [itemRequest];
      r := Ok(itemRequest);
    }

    /** findAllItemRequests: NotFound for an unknown user; otherwise one view
        per request of other users that some item answers. Requests nobody
        answered are not listed, because the views come from the grouping. */
    method FindAllItemRequests(users: map<int, User>, items: seq<Item>, userId: int)
      returns (r: Result<seq<ItemRequestResponseDto>>)
      ensures r.Ok? <==> userId in users
      ensures r.Err? ==> r.error == NotFound
      ensures r.Ok? ==>
        var others := RequestsNotBy(requests, users[userId].id);
        var m := FindItemsToItemRequests(items, others);
        && |r.value| == |m|
        && (forall q :: q in m ==> ResponseDto(q, m[q]) in r.value)
        && (forall k :: 0 <= k < |r.value| ==> r.value[k].items != [])
    {
      if userId !in users {
        return Err(NotFound);
      }
      var user := users[userId];
      var others := RequestsNotBy(requests, user.id);
      var m := FindItemsToItemRequests(items, others);
      var dtos := MapToDto(m);
      forall k | 0 <= k < |dtos| ensures dtos[k].items != [] {
        var q :| q in m && dtos[k] == ResponseDto(q, m[q]);
      }
      r := Ok(dtos);
    }

    /** findItemRequestsById: NotFound for an unknown user, checked first, then
        for an unknown request; the view of the request with the items that
        answer it, taken as the first entry of the grouping, which fails with
        IndexOutOfBounds when no item answers the request. */
    method FindItemRequestsById(users: map<int, User>, items: seq<Item>, userId: int, requestId: int)
      returns (r: Result<ItemRequestResponseDto>)
      ensures userId !in users ==> r == Err(NotFound)
      ensures userId in users && Row(requests, requestId).None? ==> r == Err(NotFound)
      ensures userId in users && Row(requests, requestId).Some? ==>
        var q := Row(requests, requestId).value;
        && (r == Err(IndexOutOfBounds) <==> forall i :: i in items ==> !Answers(i, [q]))
        && (r.Ok? <==> exists i :: i in items && Answers(i, [q]))
        && (r.Ok? ==> r.value.items != [] && exists p: ItemRequest :: p in FindItemsToItemRequests(items, [q]) && p.id == q.id && r.value == ResponseDto(p, FindItemsToItemRequests(items, [q])[p]))
    {
      if userId !in users {
        return Err(NotFound);
      }
      if !(1 <= requestId <= |requests|) {
        return Err(NotFound);
      }
      var itemRequest := requests[requestId - 1];
      var m := FindItemsToItemRequests(items, [itemRequest]);
      var dtos := MapToDto(m);
      if |dtos| == 0 {
        assert m.Keys == {};
        return Err(IndexOutOfBounds);
      }
      var p :| p in m && dtos[0] == ResponseDto(p, m[p]);
      assert m[p] != [];
      r := Ok(dtos[0]);
    }
  }
}
