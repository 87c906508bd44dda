/** The in-memory document store: the three collections, the lookups the
    controllers issue against them, and the invariants the store keeps. */
module Store {
  import opened Collections
  import opened Records

  /** `Item.findById(id)`: position of the document with that id. */
  function IndexOfItem(items: seq<Item>, id: Id): (r: Option<nat>)
    ensures r.Some? ==> r.value < |items| && items[r.value].id == id
    ensures r.None? <==> forall j :: 0 <= j < |items| ==> items[j].id != id
  {
    FirstIndex(items, (it: Item) => it.id == id)
  }

  /** `ShoppingList.findById(id)`: position of the document with that id. */
  function IndexOfList(lists: seq<ShoppingList>, id: Id): (r: Option<nat>)
    ensures r.Some? ==> r.value < |lists| && lists[r.value].id == id
    ensures r.None? <==> forall j :: 0 <= j < |lists| ==> lists[j].id != id
  {
    FirstIndex(lists, (l: ShoppingList) => l.id == id)
  }

  /** Whether a join document links list `listId` and item `itemId`. */
  predicate Links(e: ShoppingListItem, listId: Id, itemId: Id) {
    e.shoppingListId == listId && e.itemId == itemId
  }

  /** `ShoppingListItem.findOne({ shoppingListId, itemId })`: position of the
      first join document for the pair, in store order. */
  function IndexOfPair(entries: seq<ShoppingListItem>, listId: Id, itemId: Id): (r: Option<nat>)
    ensures r.Some? ==> r.value < |entries| && Links(entries[r.value], listId, itemId)
    ensures r.Some? ==> forall j :: 0 <= j < r.value ==> !Links(entries[j], listId, itemId)
    ensures r.None? <==> forall j :: 0 <= j < |entries| ==> !Links(entries[j], listId, itemId)
  {
    FirstIndex(entries, (e: ShoppingListItem) => Links(e, listId, itemId))
  }

  /** `Item.findById` as a document. */
  function LookupItem(items: seq<Item>, id: Id): (r: Option<Item>)
    ensures r.Some? ==> r.value in items && r.value.id == id
    ensures r.None? <==> forall it :: it in items ==> it.id != id
  {
    match IndexOfItem(items, id)
    case None => None
    case Some(k) => Some(items[k])
  }

  /** `ShoppingListItem.find({ shoppingListId })`, in store order. */
  function EntriesOfList(entries: seq<ShoppingListItem>, listId: Id): (r: seq<ShoppingListItem>)
    ensures forall e :: e in r <==> e in entries && e.shoppingListId == listId
    ensures forall e :: multiset(r)[e] == if e.shoppingListId == listId then multiset(entries)[e] else 0
  {
    Filter(entries, (e: ShoppingListItem) => e.shoppingListId == listId)
  }

  /** `ShoppingListItem.find({ itemId })`, in store order. */
  function EntriesOfItem(entries: seq<ShoppingListItem>, itemId: Id): (r: seq<ShoppingListItem>)
    ensures forall e :: e in r <==> e in entries && e.itemId == itemId
    ensures forall e :: multiset(r)[e] == if e.itemId == itemId then multiset(entries)[e] else 0
  {
    Filter(entries, (e: ShoppingListItem) => e.itemId == itemId)
  }

  /** The guards of the handlers addressed by one item id: the id format,
      then existence. */
  function ItemIdChecks(validId: Id -> bool, items: seq<Item>, id: Id): (r: seq<Check>)
    ensures FirstFailure(r) == if !validId(id) then Some(InvalidItemId)
                               else if exists it :: it in items && it.id == id then None
                               else Some(ItemNotFound)
  {
    var checks := [ Check(validId(id), InvalidItemId),
                    Check(IndexOfItem(items, id).Some?, ItemNotFound) ];
    assert checks[1..] == [checks[1]];
    checks
  }

  /** The guards of the handlers addressed by one shopping-list id: the id
      format, then existence. */
  function ListIdChecks(validId: Id -> bool, lists: seq<ShoppingList>, id: Id): (r: seq<Check>)
    ensures FirstFailure(r) == if !validId(id) then Some(InvalidShoppingListId)
                               else if exists l :: l in lists && l.id == id then None
                               else Some(ShoppingListNotFound)
  {
    var checks := [ Check(validId(id), InvalidShoppingListId),
                    Check(IndexOfList(lists, id).Some?, ShoppingListNotFound) ];
    assert checks[1..] == [checks[1]];
    checks
  }

  ghost predicate UniqueItemIds(items: seq<Item>) {
    forall i, j :: 0 <= i < j < |items| ==> items[i].id != items[j].id
  }

  ghost predicate UniqueListIds(lists: seq<ShoppingList>) {
    forall i, j :: 0 <= i < j < |lists| ==> lists[i].id != lists[j].id
  }

  ghost predicate UniqueEntryIds(entries: seq<ShoppingListItem>) {
    forall i, j :: 0 <= i < j < |entries| ==> entries[i].id != entries[j].id
  }

  /** At most one join document per (shoppingListId, itemId) pair. No index
      of the store enforces this; only the add handler's duplicate check does. */
  ghost predicate PairsUnique(entries: seq<ShoppingListItem>) {
    forall i, j :: 0 <= i < j < |entries| ==>
      !Links(entries[j], entries[i].shoppingListId, entries[i].itemId)
  }

  /** The store. `validId` is `mongoose.Types.ObjectId.isValid`, whose exact
      rules are left open; each collection is a sequence in insertion order,
      and `_id` is unique in each collection. */
  class Database {
    const validId: Id -> bool
    var items: seq<Item>
    var lists: seq<ShoppingList>
    var entries: seq<ShoppingListItem>

    ghost predicate Valid()
      reads this
    {
      UniqueItemIds(items) && UniqueListIds(lists) && UniqueEntryIds(entries)
    }

    constructor (validId: Id -> bool)
      ensures Valid()
      ensures this.validId == validId
      ensures items == [] && lists == [] && entries == []
    {
      this.validId := validId;
      items, lists, entries := [], [], [];
    }
  }

  lemma ConsKeepsListIdsUnique(l: ShoppingList, rest: seq<ShoppingList>)
    requires UniqueListIds(rest)
    requires forall x :: x in rest ==> x.id != l.id
    ensures UniqueListIds([l] + rest)
  {
    var r := [l] + rest;
    forall i, j | 0 <= i < j < |r| ensures r[i].id != r[j].id {
      assert r[j] == rest[j - 1];
      if i > 0 { assert r[i] == rest[i - 1]; }
    }
  }

  /** Selecting documents from a collection with unique ids keeps them unique. */
  lemma {:induction false} FilterKeepsListIdsUnique(lists: seq<ShoppingList>, p: ShoppingList -> bool)
    requires UniqueListIds(lists)
    ensures UniqueListIds(Filter(lists, p))
    decreases |lists|
  {
    if lists != [] {
      var tail := lists[1..];
      assert UniqueListIds(tail) by {
        forall i, j | 0 <= i < j < |tail| ensures tail[i].id != tail[j].id {
          assert tail[i] == lists[i + 1] && tail[j] == lists[j + 1];
        }
      }
      FilterKeepsListIdsUnique(tail, p);
      var rest := Filter(tail, p);
      assert forall l :: l in tail ==> l.id != lists[0].id;
      if p(lists[0]) {
        ConsKeepsListIdsUnique(lists[0], rest);
      }
    }
  }
}
