/** Handlers of `/shoppingListItems`: membership of items in shopping lists,
    kept in the ShoppingListItem join collection. */
module ShoppingListItemController {
  import opened Collections
  import opened Records
  import opened Store

  /** The guards of `addItemToShoppingList`, in the order the handler runs them. */
  function AddItemChecks(validId: Id -> bool, lists: seq<ShoppingList>, items: seq<Item>,
                         entries: seq<ShoppingListItem>,
                         shoppingListId: Id, itemId: Option<Id>, quantity: Option<int>): (r: seq<Check>)
    ensures FirstFailure(r) ==
              if !validId(shoppingListId) then Some(InvalidShoppingListId)
              else if !ValidField(validId, itemId) then Some(InvalidItemId)
              else if shoppingListId == "" || !Truthy(itemId) || !TruthyNumber(quantity) then Some(EntryFieldsRequired)
              else if !exists l :: l in lists && l.id == shoppingListId then Some(ShoppingListNotFoundError)
              else if !exists it :: it in items && it.id == itemId.value then Some(ItemNotFoundError)
              else if exists e :: e in entries && Links(e, shoppingListId, itemId.value) then Some(DuplicateEntry)
              else None
  {
    var checks := [ Check(validId(shoppingListId), InvalidShoppingListId),
                    Check(ValidField(validId, itemId), InvalidItemId),
                    Check(shoppingListId != "" && Truthy(itemId) && TruthyNumber(quantity), EntryFieldsRequired),
                    Check(IndexOfList(lists, shoppingListId).Some?, ShoppingListNotFoundError),
                    Check(itemId.Some? && IndexOfItem(items, itemId.value).Some?, ItemNotFoundError),
                    Check(itemId.Some? && IndexOfPair(entries, shoppingListId, itemId.value).None?, DuplicateEntry) ];
    assert checks[1..] == [checks[1], checks[2], checks[3], checks[4], checks[5]];
    assert checks[2..] == [checks[2], checks[3], checks[4], checks[5]];
    assert checks[3..] == [checks[3], checks[4], checks[5]];
    assert checks[4..] == [checks[4], checks[5]];
    assert checks[5..] == [checks[5]];
    checks
  }

  /** POST /shoppingListItems/:shoppingListId with body `{ itemId, quantity }`.
      `newId` is the `_id` the store assigns to the new document. */
  method AddItemToShoppingList(db: Database, shoppingListId: Id, itemId: Option<Id>, quantity: Option<int>, newId: Id)
    returns (reply: Reply<ShoppingListItem>)
    requires db.Valid()
    requires forall e :: e in db.entries ==> e.id != newId
    modifies db`entries
    ensures db.Valid()
    ensures var rejection := FirstFailure(AddItemChecks(db.validId, db.lists, db.items, old(db.entries),
                                                        shoppingListId, itemId, quantity));
            if rejection.Some? then
              reply == Failure(rejection.value) && db.entries == old(db.entries)
            else
              itemId.Some? && quantity.Some? &&
              var added := ShoppingListItem(newId, shoppingListId, itemId.value, quantity.value, false);
              reply == Success(201, added) && db.entries == old(db.entries) + [added]
    ensures PairsUnique(old(db.entries)) ==> PairsUnique(db.entries)
  {
    ghost var checks := AddItemChecks(db.validId, db.lists, db.items, db.entries, shoppingListId, itemId, quantity);
    if !db.validId(shoppingListId) {
      assert !checks[0].passes;
      return Failure(InvalidShoppingListId);
    }
    if !ValidField(db.validId, itemId) {
      assert !checks[1].passes;
      return Failure(InvalidItemId);
    }
    if shoppingListId == "" || !Truthy(itemId) || !TruthyNumber(quantity) {
      assert !checks[2].passes;
      return Failure(EntryFieldsRequired);
    }
    if IndexOfList(db.lists, shoppingListId).None? {
      assert !checks[3].passes;
      return Failure(ShoppingListNotFoundError);
    }
    if IndexOfItem(db.items, itemId.value).None? {
      assert !checks[4].passes;
      return Failure(ItemNotFoundError);
    }
    if IndexOfPair(db.entries, shoppingListId, itemId.value).Some? {
      assert !checks[5].passes;
      return Failure(DuplicateEntry);
    }
    assert forall k :: 0 <= k < |checks| ==> checks[k].passes;
    var added := ShoppingListItem(newId, shoppingListId, itemId.value, quantity.value, false);
    db.entries := db.entries + [added];
    reply := Success(201, added);
  }

  /** A request passes every guard of the add handler exactly when both ids
      are well-formed and present, the quantity is truthy, the list and the
      item exist, and no join document links them yet. */
  lemma AddItemAccepted(validId: Id -> bool, lists: seq<ShoppingList>, items: seq<Item>,
                        entries: seq<ShoppingListItem>,
                        shoppingListId: Id, itemId: Option<Id>, quantity: Option<int>)
    ensures FirstFailure(AddItemChecks(validId, lists, items, entries, shoppingListId, itemId, quantity)).None?
        <==> && validId(shoppingListId) && shoppingListId != ""
             && itemId.Some? && validId(itemId.value) && itemId.value != ""
             && TruthyNumber(quantity)
             && (exists l :: l in lists && l.id == shoppingListId)
             && (exists it :: it in items && it.id == itemId.value)
             && (forall e :: e in entries ==> !Links(e, shoppingListId, itemId.value))
  {
    var checks := AddItemChecks(validId, lists, items, entries, shoppingListId, itemId, quantity);
    if FirstFailure(checks).None? {
      assert checks[0].passes && checks[1].passes && checks[2].passes;
      assert checks[3].passes && checks[4].passes && checks[5].passes;
      var k := IndexOfList(lists, shoppingListId).value;
      assert lists[k] in lists;
      var m := IndexOfItem(items, itemId.value).value;
      assert items[m] in items;
    } else {
      var l := IndexOfList(lists, shoppingListId);
      var i := if itemId.Some? then IndexOfItem(items, itemId.value) else None;
      if l.None? {
        assert forall x :: x in lists ==> x.id != shoppingListId;
      }
      if itemId.Some? && i.None? {
        assert forall x :: x in items ==> x.id != itemId.value;
      }
    }
  }

  /** Adding the same pair twice is rejected: once an add has succeeded, a
      second add for that list and item fails with "Item already exists in
      the shopping list" (or, with a falsy quantity, at the earlier
      required-fields guard), whatever quantity it carries. */
  lemma {:induction false} SecondAddRejected(validId: Id -> bool, lists: seq<ShoppingList>, items: seq<Item>,
                                             entries: seq<ShoppingListItem>, shoppingListId: Id,
                                             itemId: Option<Id>, quantity: Option<int>, newId: Id,
                                             quantity2: Option<int>)
    requires FirstFailure(AddItemChecks(validId, lists, items, entries, shoppingListId, itemId, quantity)).None?
    ensures itemId.Some? && quantity.Some?
    ensures var added := ShoppingListItem(newId, shoppingListId, itemId.value, quantity.value, false);
            FirstFailure(AddItemChecks(validId, lists, items, entries + [added], shoppingListId, itemId, quantity2))
              == if TruthyNumber(quantity2) then Some(DuplicateEntry) else Some(EntryFieldsRequired)
  {
    var checks := AddItemChecks(validId, lists, items, entries, shoppingListId, itemId, quantity);
    assert checks[0].passes && checks[1].passes && checks[2].passes;
    assert checks[3].passes && checks[4].passes;
    var added := ShoppingListItem(newId, shoppingListId, itemId.value, quantity.value, false);
    var again := AddItemChecks(validId, lists, items, entries + [added], shoppingListId, itemId, quantity2);
    assert (entries + [added])[|entries|] == added;
    assert again[0].passes && again[1].passes;
    if TruthyNumber(quantity2) {
      assert again[2].passes && again[3].passes && again[4].passes && !again[5].passes;
    } else {
      assert !again[2].passes;
    }
  }

  /** The guards of the handlers addressed by a (shoppingListId, itemId) route
      pair: remove and the partial updates. */
  function PairChecks(validId: Id -> bool, entries: seq<ShoppingListItem>, shoppingListId: Id, itemId: Id)
    : (r: seq<Check>)
    ensures FirstFailure(r) ==
              if !validId(shoppingListId) then Some(InvalidShoppingListId)
              else if !validId(itemId) then Some(InvalidItemId)
              else if shoppingListId == "" || itemId == "" then Some(PairRequired)
              else if exists e :: e in entries && Links(e, shoppingListId, itemId) then None
              else Some(EntryNotFound)
  {
    var checks := [ Check(validId(shoppingListId), InvalidShoppingListId),
                    Check(validId(itemId), InvalidItemId),
                    Check(shoppingListId != "" && itemId != "", PairRequired),
                    Check(IndexOfPair(entries, shoppingListId, itemId).Some?, EntryNotFound) ];
    assert checks[1..] == [checks[1], checks[2], checks[3]];
    assert checks[2..] == [checks[2], checks[3]];
    assert checks[3..] == [checks[3]];
    checks
  }

  /** A pair request passes its guards exactly when both ids are well-formed
      and non-empty and some join document links them. */
  lemma PairAccepted(validId: Id -> bool, entries: seq<ShoppingListItem>, shoppingListId: Id, itemId: Id)
    ensures FirstFailure(PairChecks(validId, entries, shoppingListId, itemId)).None?
        <==> && validId(shoppingListId) && validId(itemId) && shoppingListId != "" && itemId != ""
             && exists e :: e in entries && Links(e, shoppingListId, itemId)
  {
    var checks := PairChecks(validId, entries, shoppingListId, itemId);
    if FirstFailure(checks).None? {
      assert checks[0].passes && checks[1].passes && checks[2].passes && checks[3].passes;
      var k := IndexOfPair(entries, shoppingListId, itemId).value;
      assert entries[k] in entries;
    } else if IndexOfPair(entries, shoppingListId, itemId).None? {
      assert forall e :: e in entries ==> !Links(e, shoppingListId, itemId);
    }
  }

  /** DELETE /shoppingListItems/:shoppingListId/:itemId: deletes the first
      join document of the pair and no other. */
  method RemoveItemFromShoppingList(db: Database, shoppingListId: Id, itemId: Id) returns (reply: Reply<string>)
    requires db.Valid()
    modifies db`entries
    ensures db.Valid()
    ensures var rejection := FirstFailure(PairChecks(db.validId, old(db.entries), shoppingListId, itemId));
            if rejection.Some? then
              reply == Failure(rejection.value) && db.entries == old(db.entries)
            else
              var k := IndexOfPair(old(db.entries), shoppingListId, itemId);
              k.Some? && reply == Success(200, "Item removed from shopping list")
              && db.entries == RemoveAt(old(db.entries), k.value)
    ensures PairsUnique(old(db.entries)) ==> PairsUnique(db.entries)
  {
    ghost var checks := PairChecks(db.validId, db.entries, shoppingListId, itemId);
    if !db.validId(shoppingListId) {
      assert !checks[0].passes;
      return Failure(InvalidShoppingListId);
    }
    if !db.validId(itemId) {
      assert !checks[1].passes;
      return Failure(InvalidItemId);
    }
    if shoppingListId == "" || itemId == "" {
      assert !checks[2].passes;
      return Failure(PairRequired);
    }
    var found := IndexOfPair(db.entries, shoppingListId, itemId);
    if found.None? {
      assert !checks[3].passes;
      return Failure(EntryNotFound);
    }
    assert forall k :: 0 <= k < |checks| ==> checks[k].passes;
    db.entries := RemoveAt(db.entries, found.value);
    reply := Success(200, "Item removed from shopping list");
  }

  /** Removing a pair right after adding it gives back the collection as it
      was: the added document is the pair's first one, the pair guards pass,
      and the remove deletes exactly it. */
  lemma {:induction false} AddThenRemoveRestores(validId: Id -> bool, lists: seq<ShoppingList>, items: seq<Item>,
                                                 entries: seq<ShoppingListItem>, shoppingListId: Id,
                                                 itemId: Option<Id>, quantity: Option<int>, newId: Id)
    requires FirstFailure(AddItemChecks(validId, lists, items, entries, shoppingListId, itemId, quantity)).None?
    ensures itemId.Some? && quantity.Some?
    ensures var after := entries + [ShoppingListItem(newId, shoppingListId, itemId.value, quantity.value, false)];
            && FirstFailure(PairChecks(validId, after, shoppingListId, itemId.value)).None?
            && IndexOfPair(after, shoppingListId, itemId.value) == Some(|entries|)
            && RemoveAt(after, |entries|) == entries
  {
    var checks := AddItemChecks(validId, lists, items, entries, shoppingListId, itemId, quantity);
    assert checks[0].passes && checks[1].passes && checks[2].passes;
    assert checks[3].passes && checks[4].passes && checks[5].passes;
    var added := ShoppingListItem(newId, shoppingListId, itemId.value, quantity.value, false);
    var after := entries + [added];
    assert after[|entries|] == added;
    assert forall j :: 0 <= j < |entries| ==> after[j] == entries[j];
    assert after[..|entries|] == entries;
    var pair := PairChecks(validId, after, shoppingListId, itemId.value);
    assert pair[0].passes && pair[1].passes && pair[2].passes && pair[3].passes;
  }

  /** While pairs are unique, a removed pair is gone: a second remove, or any
      update of that pair, fails with "Item not found in the shopping list". */
  lemma RemovedPairIsGone(entries: seq<ShoppingListItem>, shoppingListId: Id, itemId: Id, k: nat)
    requires PairsUnique(entries)
    requires IndexOfPair(entries, shoppingListId, itemId) == Some(k)
    ensures IndexOfPair(RemoveAt(entries, k), shoppingListId, itemId).None?
  {
    var r := RemoveAt(entries, k);
    forall j | 0 <= j < |r| ensures !Links(r[j], shoppingListId, itemId) {
      if j < k { assert r[j] == entries[j]; } else { assert r[j] == entries[j + 1]; }
    }
  }

  /** The join document after a partial update: a supplied field takes the
      supplied value, an absent one keeps its stored value, and the ids never
      change. */
  function Patched(e: ShoppingListItem, quantity: Option<int>, status: Option<bool>): (r: ShoppingListItem)
    ensures r.id == e.id && r.shoppingListId == e.shoppingListId && r.itemId == e.itemId
    ensures r.quantity == if quantity.Some? then quantity.value else e.quantity
    ensures r.status == if status.Some? then status.value else e.status
  {
    var withQuantity := if quantity.Some? then e.(quantity := quantity.value) else e;
    if status.Some? then withQuantity.(status := status.value) else withQuantity
  }

  /** Partial update of the pair's join document with body `{ quantity?, status? }`:
      only that document changes, and in it only the supplied fields. */
  method UpdateShoppingListItem(db: Database, shoppingListId: Id, itemId: Id,
                                quantity: Option<int>, status: Option<bool>)
    returns (reply: Reply<ShoppingListItem>)
    requires db.Valid()
    modifies db`entries
    ensures db.Valid()
    ensures var rejection := FirstFailure(PairChecks(db.validId, old(db.entries), shoppingListId, itemId));
            if rejection.Some? then
              reply == Failure(rejection.value) && db.entries == old(db.entries)
            else
              var k := IndexOfPair(old(db.entries), shoppingListId, itemId);
              k.Some? &&
              var updated := Patched(old(db.entries)[k.value], quantity, status);
              reply == Success(200, updated) && db.entries == old(db.entries)[k.value := updated]
    ensures PairsUnique(old(db.entries)) ==> PairsUnique(db.entries)
  {
    ghost var checks := PairChecks(db.validId, db.entries, shoppingListId, itemId);
    if !db.validId(shoppingListId) {
      assert !checks[0].passes;
      return Failure(InvalidShoppingListId);
    }
    if !db.validId(itemId) {
      assert !checks[1].passes;
      return Failure(InvalidItemId);
    }
    if shoppingListId == "" || itemId == "" {
      assert !checks[2].passes;
      return Failure(PairRequired);
    }
    var found := IndexOfPair(db.entries, shoppingListId, itemId);
    if found.None? {
      assert !checks[3].passes;
      return Failure(EntryNotFound);
    }
    assert forall k :: 0 <= k < |checks| ==> checks[k].passes;
    var updated := Patched(db.entries[found.value], quantity, status);
    db.entries := db.entries[found.value := updated];
    reply := Success(200, updated);
  }

  /** PATCH /shoppingListItems/:shoppingListId/:itemId/status with body
      `{ status? }`: changes at most the `status` of the pair's document. */
  method UpdateShoppingListItemStatus(db: Database, shoppingListId: Id, itemId: Id, status: Option<bool>)
    returns (reply: Reply<ShoppingListItem>)
    requires db.Valid()
    modifies db`entries
    ensures db.Valid()
    ensures var rejection := FirstFailure(PairChecks(db.validId, old(db.entries), shoppingListId, itemId));
            if rejection.Some? then
              reply == Failure(rejection.value) && db.entries == old(db.entries)
            else
              var k := IndexOfPair(old(db.entries), shoppingListId, itemId);
              k.Some? &&
              var updated := old(db.entries)[k.value].(status := if status.Some? then status.value
                                                                 else old(db.entries)[k.value].status);
              reply == Success(200, updated) && db.entries == old(db.entries)[k.value := updated]
    ensures PairsUnique(old(db.entries)) ==> PairsUnique(db.entries)
  {
    reply := UpdateShoppingListItem(db, shoppingListId, itemId, None, status);
  }

  /** PATCH /shoppingListItems/:shoppingListId/:itemId/quantity with body
      `{ quantity? }`: changes at most the `quantity` of the pair's document. */
  method UpdateShoppingListItemQuantity(db: Database, shoppingListId: Id, itemId: Id, quantity: Option<int>)
    returns (reply: Reply<ShoppingListItem>)
    requires db.Valid()
    modifies db`entries
    ensures db.Valid()
    ensures var rejection := FirstFailure(PairChecks(db.validId, old(db.entries), shoppingListId, itemId));
            if rejection.Some? then
              reply == Failure(rejection.value) && db.entries == old(db.entries)
            else
              var k := IndexOfPair(old(db.entries), shoppingListId, itemId);
              k.Some? &&
              var updated := old(db.entries)[k.value].(quantity := if quantity.Some? then quantity.value
                                                                   else old(db.entries)[k.value].quantity);
              reply == Success(200, updated) && db.entries == old(db.entries)[k.value := updated]
    ensures PairsUnique(old(db.entries)) ==> PairsUnique(db.entries)
  {
    reply := UpdateShoppingListItem(db, shoppingListId, itemId, quantity, None);
  }

  /** A join document with its `itemId` populated: the Item document, or
      None (JSON null) when no Item has that id. */
  datatype PopulatedEntry = PopulatedEntry(id: Id, shoppingListId: Id, item: Option<Item>, quantity: int, status: bool)

  /** `.populate('itemId')` of one join document. */
  function Populate(items: seq<Item>, e: ShoppingListItem): (r: PopulatedEntry)
    ensures r.id == e.id && r.shoppingListId == e.shoppingListId
    ensures r.quantity == e.quantity && r.status == e.status
    ensures r.item.Some? ==> r.item.value in items && r.item.value.id == e.itemId
    ensures r.item.None? <==> forall it :: it in items ==> it.id != e.itemId
  {
    PopulatedEntry(e.id, e.shoppingListId, LookupItem(items, e.itemId), e.quantity, e.status)
  }

  /** `.populate('itemId')` of a result set, position by position. */
  function PopulateAll(items: seq<Item>, links: seq<ShoppingListItem>): (r: seq<PopulatedEntry>)
    ensures |r| == |links|
    ensures forall k :: 0 <= k < |r| ==> r[k] == Populate(items, links[k])
    ensures forall p :: p in r <==> exists e :: e in links && p == Populate(items, e)
  {
    if links == [] then []
    else
      assert forall e :: e in links <==> e == links[0] || e in links[1..];
      [Populate(items, links[0])] + PopulateAll(items, links[1..])
  }

  /** The guards of `getItemsInShoppingList`, in order. */
  function ListChecks(validId: Id -> bool, lists: seq<ShoppingList>, shoppingListId: Id): (r: seq<Check>)
    ensures FirstFailure(r) == if !validId(shoppingListId) then Some(InvalidShoppingListId)
                               else if shoppingListId == "" then Some(ShoppingListIdRequired)
                               else if exists l :: l in lists && l.id == shoppingListId then None
                               else Some(ShoppingListNotFoundError)
  {
    var checks := [ Check(validId(shoppingListId), InvalidShoppingListId),
                    Check(shoppingListId != "", ShoppingListIdRequired),
                    Check(IndexOfList(lists, shoppingListId).Some?, ShoppingListNotFoundError) ];
    assert checks[1..] == [checks[1], checks[2]];
    assert checks[2..] == [checks[2]];
    checks
  }

  /** GET /shoppingListItems/:shoppingListId: the list's join documents in
      store order, each with its item populated. */
  function GetItemsInShoppingList(validId: Id -> bool, lists: seq<ShoppingList>, items: seq<Item>,
                                  entries: seq<ShoppingListItem>, shoppingListId: Id)
    : (r: Reply<seq<PopulatedEntry>>)
    ensures var rejection := FirstFailure(ListChecks(validId, lists, shoppingListId));
            rejection.Some? ==> r == Failure(rejection.value)
    ensures r.Success? <==> (validId(shoppingListId) && shoppingListId != ""
                             && exists l :: l in lists && l.id == shoppingListId)
    ensures r.Success? ==> r.status == 200
    ensures r.Success? ==> |r.value| == |EntriesOfList(entries, shoppingListId)|
    ensures r.Success? ==> forall k :: 0 <= k < |r.value| ==>
              r.value[k] == Populate(items, EntriesOfList(entries, shoppingListId)[k])
    ensures r.Success? ==> forall p :: p in r.value <==>
              exists e :: e in entries && e.shoppingListId == shoppingListId && p == Populate(items, e)
  {
    var checks := ListChecks(validId, lists, shoppingListId);
    match FirstFailure(checks)
    case Some(error) =>
      assert !(checks[0].passes && checks[1].passes && checks[2].passes);
      assert IndexOfList(lists, shoppingListId).None? ==> forall l :: l in lists ==> l.id != shoppingListId;
      Failure(error)
    case None =>
      assert checks[0].passes && checks[1].passes && checks[2].passes;
      assert lists[IndexOfList(lists, shoppingListId).value] in lists;
      Success(200, PopulateAll(items, EntriesOfList(entries, shoppingListId)))
  }
}
