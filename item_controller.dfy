/** Handlers of `/items`: CRUD over the Item collection. */
module ItemController {
  import opened Collections
  import opened Records
  import opened Store

  /** GET /items: every Item document, in store order. */
  function GetAllItems(items: seq<Item>): (r: Reply<seq<Item>>)
    ensures r.Success? && r.status == 200
    ensures |r.value| == |items| && forall k :: 0 <= k < |items| ==> r.value[k] == items[k]
  {
    Success(200, items)
  }

  /** GET /items/:id. */
  function GetItemById(validId: Id -> bool, items: seq<Item>, id: Id): (r: Reply<Item>)
    ensures !validId(id) ==> r == Failure(InvalidItemId)
    ensures validId(id) && (forall it :: it in items ==> it.id != id) ==> r == Failure(ItemNotFound)
    ensures r.Success? <==> validId(id) && exists it :: it in items && it.id == id
    ensures r.Success? ==> r.status == 200 && r.value in items && r.value.id == id
  {
    if !validId(id) then Failure(InvalidItemId)
    else match IndexOfItem(items, id)
      case None => Failure(ItemNotFound)
      case Some(k) => assert items[k] in items; Success(200, items[k])
  }

  /** POST /items with body `{ name?, description? }`; `newId` is the `_id`
      the store assigns. A missing or empty name is rejected before the store
      is touched; otherwise exactly one document is appended. */
  method CreateItem(db: Database, name: Option<string>, description: Option<string>, newId: Id)
    returns (reply: Reply<Item>)
    requires db.Valid()
    requires forall it :: it in db.items ==> it.id != newId
    modifies db`items
    ensures db.Valid()
    ensures !Truthy(name) ==> reply == Failure(NameRequired) && db.items == old(db.items)
    ensures Truthy(name) ==>
              var created := Item(newId, name.value, description);
              reply == Success(201, created) && db.items == old(db.items) + [created]
  {
    if !Truthy(name) {
      return Failure(NameRequired);
    }
    var created := Item(newId, name.value, description);
    db.items := db.items + [created];
    reply := Success(201, created);
  }

  /** The guards of `updateItem`, in order: the id format is checked before
      the name, and existence last. */
  function UpdateItemChecks(validId: Id -> bool, items: seq<Item>, id: Id, name: Option<string>): (r: seq<Check>)
    ensures FirstFailure(r) == if !validId(id) then Some(InvalidItemId)
                               else if !Truthy(name) then Some(NameRequired)
                               else if exists it :: it in items && it.id == id then None
                               else Some(ItemNotFound)
  {
    var checks := [ Check(validId(id), InvalidItemId),
                    Check(Truthy(name), NameRequired),
                    Check(IndexOfItem(items, id).Some?, ItemNotFound) ];
    assert checks[1..] == [checks[1], checks[2]];
    assert checks[2..] == [checks[2]];
    checks
  }

  /** The document `findByIdAndUpdate(id, { name, description })` leaves:
      the name is replaced; the description is replaced when supplied, and an
      absent one is dropped from the update, so the stored one stays. */
  function Renamed(it: Item, name: string, description: Option<string>): (r: Item)
    ensures r.id == it.id && r.name == name
    ensures r.description == if description.Some? then description else it.description
  {
    it.(name := name, description := if description.Some? then description else it.description)
  }

  /** PATCH /items/:id with body `{ name?, description? }`: changes that
      document only. */
  method UpdateItem(db: Database, id: Id, name: Option<string>, description: Option<string>)
    returns (reply: Reply<Item>)
    requires db.Valid()
    modifies db`items
    ensures db.Valid()
    ensures var rejection := FirstFailure(UpdateItemChecks(db.validId, old(db.items), id, name));
            if rejection.Some? then
              reply == Failure(rejection.value) && db.items == old(db.items)
            else
              var k := IndexOfItem(old(db.items), id);
              k.Some? && name.Some? &&
              var updated := Renamed(old(db.items)[k.value], name.value, description);
              reply == Success(200, updated) && db.items == old(db.items)[k.value := updated]
  {
    ghost var checks := UpdateItemChecks(db.validId, db.items, id, name);
    if !db.validId(id) {
      assert !checks[0].passes;
      return Failure(InvalidItemId);
    }
    if !Truthy(name) {
      assert !checks[1].passes;
      return Failure(NameRequired);
    }
    var found := IndexOfItem(db.items, id);
    if found.None? {
      assert !checks[2].passes;
      return Failure(ItemNotFound);
    }
    assert forall k :: 0 <= k < |checks| ==> checks[k].passes;
    var updated := Renamed(db.items[found.value], name.value, description);
    db.items := db.items[found.value := updated];
    reply := Success(200, updated);
  }

  /** DELETE /items/:id: removes that Item document only. Join documents that
      reference the item are left as they are (no cascade). The 204 reply
      carries no body on the wire. */
  method DeleteItem(db: Database, id: Id) returns (reply: Reply<string>)
    requires db.Valid()
    modifies db`items
    ensures db.Valid()
    ensures db.entries == old(db.entries) && db.lists == old(db.lists)
    ensures var rejection := FirstFailure(ItemIdChecks(db.validId, old(db.items), id));
            if rejection.Some? then
              reply == Failure(rejection.value) && db.items == old(db.items)
            else
              var k := IndexOfItem(old(db.items), id);
              k.Some? && reply == Success(204, "Item deleted")
              && db.items == RemoveAt(old(db.items), k.value)
  {
    ghost var checks := ItemIdChecks(db.validId, db.items, id);
    if !db.validId(id) {
      assert !checks[0].passes;
      return Failure(InvalidItemId);
    }
    var found := IndexOfItem(db.items, id);
    if found.None? {
      assert !checks[1].passes;
      return Failure(ItemNotFound);
    }
    assert forall k :: 0 <= k < |checks| ==> checks[k].passes;
    db.items := RemoveAt(db.items, found.value);
    reply := Success(204, "Item deleted");
  }

  /** With unique ids, deleting an item leaves no document with that id and
      keeps every other document. */
  lemma {:induction false} DeleteRemovesOnlyThatItem(items: seq<Item>, k: nat)
    requires UniqueItemIds(items) && k < |items|
    ensures forall it :: it in RemoveAt(items, k) ==> it.id != items[k].id
    ensures forall it :: it in items && it.id != items[k].id ==> it in RemoveAt(items, k)
    ensures UniqueItemIds(RemoveAt(items, k))
  {
    var r := RemoveAt(items, k);
    forall it | it in items && it.id != items[k].id ensures it in r {
      var j :| 0 <= j < |items| && items[j] == it;
      if j < k { assert r[j] == it; } else { assert j > k; assert r[j - 1] == it; }
    }
  }

  /** A created item is then found by its id. */
  lemma CreatedItemIsFound(validId: Id -> bool, items: seq<Item>, created: Item)
    requires validId(created.id)
    requires forall it :: it in items ==> it.id != created.id
    ensures GetItemById(validId, items + [created], created.id) == Success(200, created)
  {
    var all := items + [created];
    assert forall j :: 0 <= j < |items| ==> all[j] == items[j] && items[j] in items;
    assert all[|items|] == created;
  }

  /** After an update, reading the item by its id returns the updated document. */
  lemma UpdatedItemIsFound(validId: Id -> bool, items: seq<Item>, k: nat, name: string, description: Option<string>)
    requires UniqueItemIds(items) && k < |items| && validId(items[k].id)
    ensures var updated := Renamed(items[k], name, description);
            GetItemById(validId, items[k := updated], items[k].id) == Success(200, updated)
  {
    var all := items[k := Renamed(items[k], name, description)];
    assert forall j :: 0 <= j < |items| ==> all[j].id == items[j].id;
  }

  /** After a delete, reading the item by its id is "Item not found". */
  lemma DeletedItemIsGone(validId: Id -> bool, items: seq<Item>, k: nat)
    requires UniqueItemIds(items) && k < |items| && validId(items[k].id)
    ensures GetItemById(validId, RemoveAt(items, k), items[k].id) == Failure(ItemNotFound)
  {
    DeleteRemovesOnlyThatItem(items, k);
  }
}
