/** InMemoryItemRepositoryImpl: items kept in a hash map under ids handed out
    by a counter, and a per-user index listing each user's created items in
    creation order. */
module InMemoryItemRepository {
  import opened Common
  import opened Model

  /** The search filter: an available item whose description or name contains
      the text, all three lower-cased. */
  predicate Matches(i: Item, text: string)
  {
    i.available && (Contains(Lower(i.description), Lower(text)) || Contains(Lower(i.name), Lower(text)))
  }

  /** The empty text is contained in every string, so it matches every
      available item. */
  lemma EmptyTextMatchesEveryAvailableItem(i: Item)
    ensures Matches(i, "") <==> i.available
  {
    assert Lower(i.name)[..0] == "";
  }

  /** The case the text is written in does not change what it matches. */
  lemma {:induction false} MatchesIgnoresCase(i: Item, text: string)
    ensures Matches(i, Lower(text)) == Matches(i, text)
  {
    var l := Lower(text);
    forall k | 0 <= k < |text|
      ensures Lower(l)[k] == Lower(text)[k]
    {
      assert l[k] == FoldLower(text[k]);
    }
    assert Lower(l) == Lower(text);
  }

  class ItemRepository {
    /** The id the next created item receives. */
    var itemId: int
    var items: map<int, Item>
    var userItemIndex: map<int, seq<Item>>

    ghost predicate Valid()
      reads this
    {
      itemId >= 1
    }

    constructor ()
      ensures Valid()
      ensures itemId == 1 && items == map[] && userItemIndex == map[]
    {
      itemId := 1;
      items := map[];
      userItemIndex := map[];
    }

    /** createItem: the item takes the counter's value as its id, the counter
        moves on, the item is stored under its id and appended to the end of
        the creating user's list, which is created when absent. */
    method CreateItem(item: Item, userId: int) returns (r: Item)
      requires Valid()
      modifies this
      ensures Valid()
      ensures r == item.(id := old(itemId))
      ensures itemId == old(itemId) + 1
      ensures items == old(items)[r.id := r]
      ensures userId in old(userItemIndex) ==> userItemIndex == old(userItemIndex)[userId := old(userItemIndex)[userId] + [r]]
      ensures userId !in old(userItemIndex) ==> userItemIndex == old(userItemIndex)[userId := [r]]
    {
      r := item.(id := itemId);
      itemId := itemId + 1;
      items := items[r.id := r];
      var itemList := if userId in userItemIndex then userItemIndex[userId] else [];
      assert [] + [r] == [r];
      userItemIndex := userItemIndex[userId := itemList + [r]];
    }

    /** updateItem: stores the item under `id` and returns what was stored
        there before (null when nothing was); the per-user index is untouched. */
    method UpdateItem(item: Item, id: int, userId: int) returns (previous: Option<Item>)
      modifies this
      ensures previous.Some? <==> id in old(items)
      ensures previous.Some? ==> previous.value == old(items)[id]
      ensures items == old(items)[id := item]
      ensures itemId == old(itemId) && userItemIndex == old(userItemIndex)
    {
      previous := if id in items then Some(items[id]) else None;
      items := items[id := item];
    }

    /** getItemById. */
    method GetItemById(id: int) returns (r: Option<Item>)
      ensures r.Some? <==> id in items
      ensures r.Some? ==> r.value == items[id]
    {
      r := if id in items then Some(items[id]) else None;
    }

    /** getItems: every stored item, one per key, in no promised order. */
    method GetItems() returns (r: seq<Item>)
      ensures |r| == |items|
      ensures forall i :: i in r <==> i in items.Values
    {
      r := ValuesOf(items);
    }

    /** getItemsByUserId: the items the user created, in creation order; null
        for a user who never created one. */
    method GetItemsByUserId(userId: int) returns (r: Option<seq<Item>>)
      ensures r.None? <==> userId !in userItemIndex
      ensures r.Some? ==> r.value == userItemIndex[userId]
    {
      r := if userId in userItemIndex then Some(userItemIndex[userId]) else None;
    }

    /** searchByText: the stored values, in the order the map yields them,
        filtered by the lower-cased text; exactly the stored items that match. */
    method SearchByText(text: string, userId: int) returns (r: seq<Item>)
      ensures forall i :: i in r <==> i in items.Values && Matches(i, text)
      ensures |r| <= |items|
    {
      var lowerCaseText := Lower(text);
      var values := ValuesOf(items);
      r := Filter(values, (i: Item) =>
        i.available && (Contains(Lower(i.description), lowerCaseText) || Contains(Lower(i.name), lowerCaseText)));
      forall i | i in r ensures i in values && Matches(i, text) {
        var k :| 0 <= k < |r| && r[k] == i;
      }
      forall i | i in values && Matches(i, text) ensures i in r {
        var k :| 0 <= k < |values| && values[k] == i;
      }
    }
  }

  /** Two items created one after the other receive consecutive ids and both
      remain readable. */
  method CreateTwice(repo: ItemRepository, a: Item, b: Item, userId: int) returns (x: Item, y: Item)
    requires repo.Valid()
    modifies repo
    ensures x.id == old(repo.itemId) && y.id == x.id + 1
    ensures x.id in repo.items && y.id in repo.items && repo.items[x.id] == x && repo.items[y.id] == y
    ensures userId in repo.userItemIndex && |repo.userItemIndex[userId]| >= 2
    ensures repo.userItemIndex[userId][|repo.userItemIndex[userId]| - 2..] == [x, y]
  {
    x := repo.CreateItem(a, userId);
    y := repo.CreateItem(b, userId);
  }
}
