/** Handlers of `/shoppingLists`: CRUD over the ShoppingList collection, the
    reverse lookup "lists containing an item", and search. */
module ShoppingListController {
  import opened Collections
  import opened Records
  import opened Store
  import opened TextMatch

  /** GET /shoppingLists: every ShoppingList document, in store order. */
  function GetAllShoppingLists(lists: seq<ShoppingList>): (r: Reply<seq<ShoppingList>>)
    ensures r.Success? && r.status == 200
    ensures |r.value| == |lists| && forall k :: 0 <= k < |lists| ==> r.value[k] == lists[k]
  {
    Success(200, lists)
  }

  /** GET /shoppingLists/:id. */
  function GetShoppingListById(validId: Id -> bool, lists: seq<ShoppingList>, id: Id): (r: Reply<ShoppingList>)
    ensures !validId(id) ==> r == Failure(InvalidShoppingListId)
    ensures validId(id) && (forall l :: l in lists ==> l.id != id) ==> r == Failure(ShoppingListNotFound)
    ensures r.Success? <==> validId(id) && exists l :: l in lists && l.id == id
    ensures r.Success? ==> r.status == 200 && r.value in lists && r.value.id == id
  {
    if !validId(id) then Failure(InvalidShoppingListId)
    else match IndexOfList(lists, id)
      case None => Failure(ShoppingListNotFound)
      case Some(k) => assert lists[k] in lists; Success(200, lists[k])
  }

  /** POST /shoppingLists with body `{ name?, description? }`. `newId` is the
      `_id` the store assigns and `now` the clock reading that becomes
      `createdAt`. */
  method CreateShoppingList(db: Database, name: Option<string>, description: Option<string>, newId: Id, now: int)
    returns (reply: Reply<ShoppingList>)
    requires db.Valid()
    requires forall l :: l in db.lists ==> l.id != newId
    modifies db`lists
    ensures db.Valid()
    ensures !Truthy(name) ==> reply == Failure(NameRequired) && db.lists == old(db.lists)
    ensures Truthy(name) ==>
              var created := ShoppingList(newId, name.value, description, now);
              reply == Success(201, created) && db.lists == old(db.lists) + [created]
  {
    if !Truthy(name) {
      return Failure(NameRequired);
    }
    var created := ShoppingList(newId, name.value, description, now);
    db.lists := db.lists + [created];
    reply := Success(201, created);
  }

  /** The guards of `updateShoppingList`, in order: the id format is checked
      before the name, and existence last. */
  function UpdateShoppingListChecks(validId: Id -> bool, lists: seq<ShoppingList>, id: Id, name: Option<string>)
    : (r: seq<Check>)
    ensures FirstFailure(r) == if !validId(id) then Some(InvalidShoppingListId)
                               else if !Truthy(name) then Some(NameRequired)
                               else if exists l :: l in lists && l.id == id then None
                               else Some(ShoppingListNotFound)
  {
    var checks := [ Check(validId(id), InvalidShoppingListId),
                    Check(Truthy(name), NameRequired),
                    Check(IndexOfList(lists, id).Some?, ShoppingListNotFound) ];
    assert checks[1..] == [checks[1], checks[2]];
    assert checks[2..] == [checks[2]];
    checks
  }

  /** The document `findByIdAndUpdate(id, { name, description })` leaves:
      the name is replaced, the description when supplied (an absent one is
      dropped from the update), and `createdAt` is kept. */
  function Renamed(l: ShoppingList, name: string, description: Option<string>): (r: ShoppingList)
    ensures r.id == l.id && r.createdAt == l.createdAt && r.name == name
    ensures r.description == if description.Some? then description else l.description
  {
    l.(name := name, description := if description.Some? then description else l.description)
  }

  /** PATCH /shoppingLists/:id with body `{ name?, description? }`: changes
      that document only. */
  method UpdateShoppingList(db: Database, id: Id, name: Option<string>, description: Option<string>)
    returns (reply: Reply<ShoppingList>)
    requires db.Valid()
    modifies db`lists
    ensures db.Valid()
    ensures var rejection := FirstFailure(UpdateShoppingListChecks(db.validId, old(db.lists), id, name));
            if rejection.Some? then
              reply == Failure(rejection.value) && db.lists == old(db.lists)
            else
              var k := IndexOfList(old(db.lists), id);
              k.Some? && name.Some? &&
              var updated := Renamed(old(db.lists)[k.value], name.value, description);
              reply == Success(200, updated) && db.lists == old(db.lists)[k.value := updated]
  {
    ghost var checks := UpdateShoppingListChecks(db.validId, db.lists, id, name);
    if !db.validId(id) {
      assert !checks[0].passes;
      return Failure(InvalidShoppingListId);
    }
    if !Truthy(name) {
      assert !checks[1].passes;
      return Failure(NameRequired);
    }
    var found := IndexOfList(db.lists, id);
    if found.None? {
      assert !checks[2].passes;
      return Failure(ShoppingListNotFound);
    }
    assert forall k :: 0 <= k < |checks| ==> checks[k].passes;
    var updated := Renamed(db.lists[found.value], name.value, description);
    db.lists := db.lists[found.value := updated];
    reply := Success(200, updated);
  }

  /** DELETE /shoppingLists/:id: removes that ShoppingList document only. Its
      join documents stay in the join collection (no cascade). The 204 reply
      carries no body on the wire. */
  method DeleteShoppingList(db: Database, id: Id) returns (reply: Reply<string>)
    requires db.Valid()
    modifies db`lists
    ensures db.Valid()
    ensures db.entries == old(db.entries) && db.items == old(db.items)
    ensures var rejection := FirstFailure(ListIdChecks(db.validId, old(db.lists), id));
            if rejection.Some? then
              reply == Failure(rejection.value) && db.lists == old(db.lists)
            else
              var k := IndexOfList(old(db.lists), id);
              k.Some? && reply == Success(204, "ShoppingList deleted")
              && db.lists == RemoveAt(old(db.lists), k.value)
  {
    ghost var checks := ListIdChecks(db.validId, db.lists, id);
    if !db.validId(id) {
      assert !checks[0].passes;
      return Failure(InvalidShoppingListId);
    }
    var found := IndexOfList(db.lists, id);
    if found.None? {
      assert !checks[1].passes;
      return Failure(ShoppingListNotFound);
    }
    assert forall k :: 0 <= k < |checks| ==> checks[k].passes;
    db.lists := RemoveAt(db.lists, found.value);
    reply := Success(204, "ShoppingList deleted");
  }

  /** `shoppingListItems.map(item => item.shoppingListId)`. */
  function ListIdsOf(links: seq<ShoppingListItem>): (r: seq<Id>)
    ensures |r| == |links|
    ensures forall id :: id in r <==> exists e :: e in links && e.shoppingListId == id
  {
    if links == [] then []
    else
      assert forall e :: e in links <==> e == links[0] || e in links[1..];
      [links[0].shoppingListId] + ListIdsOf(links[1..])
  }

  /** `ShoppingList.find({ _id: { $in: ids } })`, in store order. */
  function ListsWithIds(lists: seq<ShoppingList>, ids: seq<Id>): (r: seq<ShoppingList>)
    ensures forall l :: l in r <==> l in lists && l.id in ids
    ensures UniqueListIds(lists) ==> UniqueListIds(r)
  {
    var p := (l: ShoppingList) => l.id in ids;
    assert UniqueListIds(lists) ==> UniqueListIds(Filter(lists, p)) by {
      if UniqueListIds(lists) { FilterKeepsListIdsUnique(lists, p); }
    }
    Filter(lists, p)
  }

  /** GET /shoppingLists/item/:itemId: the lists that hold the item, each
      once, in store order; an item in no list gives an empty array. */
  function GetShoppingListsByItem(validId: Id -> bool, items: seq<Item>, lists: seq<ShoppingList>,
                                  entries: seq<ShoppingListItem>, itemId: Id)
    : (r: Reply<seq<ShoppingList>>)
    ensures !validId(itemId) ==> r == Failure(InvalidItemId)
    ensures validId(itemId) && (forall it :: it in items ==> it.id != itemId) ==> r == Failure(ItemNotFound)
    ensures r.Success? <==> validId(itemId) && exists it :: it in items && it.id == itemId
    ensures r.Success? ==> r.status == 200
    ensures r.Success? ==> forall l :: l in r.value <==>
              l in lists && exists e :: e in entries && e.itemId == itemId && e.shoppingListId == l.id
    ensures r.Success? && UniqueListIds(lists) ==> UniqueListIds(r.value)
  {
    if !validId(itemId) then Failure(InvalidItemId)
    else match IndexOfItem(items, itemId)
      case None => Failure(ItemNotFound)
      case Some(k) =>
        assert items[k] in items;
        var links := EntriesOfItem(entries, itemId);
        if |links| == 0 then
          assert links == [];
          Success(200, [])
        else
          Success(200, ListsWithIds(lists, ListIdsOf(links)))
  }

  /** The search filter `{ $or: [ { name: /query/i }, { description: /query/i } ] }`
      for a literal query; a list without description matches on its name only. */
  predicate MatchesQuery(l: ShoppingList, query: string)
    ensures MatchesQuery(l, query) <==>
              (exists i :: OccursAtIgnoringCase(l.name, query, i))
              || (l.description.Some? && exists i :: OccursAtIgnoringCase(l.description.value, query, i))
  {
    ContainsIgnoringCase(l.name, query)
    || (l.description.Some? && ContainsIgnoringCase(l.description.value, query))
  }

  /** GET /shoppingLists/search?query=: a missing or empty query is rejected
      before the store is read; otherwise the matching lists, in store order,
      and no match is an empty array, not an error. */
  function SearchShoppingLists(lists: seq<ShoppingList>, query: Option<string>): (r: Reply<seq<ShoppingList>>)
    ensures r.Failure? <==> !Truthy(query)
    ensures r.Failure? ==> r.error == QueryRequired
    ensures r.Success? ==> r.status == 200 && |r.value| <= |lists|
    ensures r.Success? ==> forall l :: l in r.value <==> l in lists && MatchesQuery(l, query.value)
    ensures r.Success? ==> forall l :: multiset(r.value)[l] ==
                                       (if MatchesQuery(l, query.value) then multiset(lists)[l] else 0)
  {
    if !Truthy(query) then Failure(QueryRequired)
    else
      var found := Filter(lists, (l: ShoppingList) => MatchesQuery(l, query.value));
      if |found| == 0 then Success(200, []) else Success(200, found)
  }

  /** A created list is then found by its id. */
  lemma CreatedListIsFound(validId: Id -> bool, lists: seq<ShoppingList>, created: ShoppingList)
    requires validId(created.id)
    requires forall l :: l in lists ==> l.id != created.id
    ensures GetShoppingListById(validId, lists + [created], created.id) == Success(200, created)
  {
    var all := lists + [created];
    assert forall j :: 0 <= j < |lists| ==> all[j] == lists[j] && lists[j] in lists;
    assert all[|lists|] == created;
  }

  /** After an update, reading the list by its id returns the updated document. */
  lemma UpdatedListIsFound(validId: Id -> bool, lists: seq<ShoppingList>, k: nat, name: string,
                           description: Option<string>)
    requires UniqueListIds(lists) && k < |lists| && validId(lists[k].id)
    ensures var updated := Renamed(lists[k], name, description);
            GetShoppingListById(validId, lists[k := updated], lists[k].id) == Success(200, updated)
  {
    var all := lists[k := Renamed(lists[k], name, description)];
    assert forall j :: 0 <= j < |lists| ==> all[j].id == lists[j].id;
  }

  /** After a delete, reading the list by its id is "Shopping List not found". */
  lemma DeletedListIsGone(validId: Id -> bool, lists: seq<ShoppingList>, k: nat)
    requires UniqueListIds(lists) && k < |lists| && validId(lists[k].id)
    ensures GetShoppingListById(validId, RemoveAt(lists, k), lists[k].id) == Failure(ShoppingListNotFound)
  {
    var r := RemoveAt(lists, k);
    forall j | 0 <= j < |r| ensures r[j].id != lists[k].id {
      if j < k { assert r[j] == lists[j]; } else { assert r[j] == lists[j + 1]; }
    }
  }

  /** A list whose name holds the query, in any letter case, is found. */
  lemma SearchFindsNameMatch(lists: seq<ShoppingList>, l: ShoppingList, query: string, i: nat)
    requires l in lists && query != ""
    requires OccursAtIgnoringCase(l.name, query, i)
    ensures var r := SearchShoppingLists(lists, Some(query)); r.Success? && l in r.value
  {
  }

  /** Searching for a list's full name, in any letter case, finds that list. */
  lemma SearchFindsOwnName(lists: seq<ShoppingList>, l: ShoppingList)
    requires l in lists && l.name != ""
    ensures var r := SearchShoppingLists(lists, Some(l.name)); r.Success? && l in r.value
  {
    ContainsItself(l.name);
  }

  /** "Alpha" occurs in "List Alpha". */
  lemma AlphaMatchesAlpha(l: ShoppingList, query: string)
    requires l.name == "List Alpha" && query == "Alpha"
    ensures MatchesQuery(l, query)
  {
    assert OccursAtIgnoringCase(l.name, query, 5);
  }

  /** Neither "List Beta" nor "Description Beta" holds an 'h', so neither
      holds "Alpha". */
  lemma BetaMissesAlpha(l: ShoppingList, query: string)
    requires l.name == "List Beta" && l.description == Some("Description Beta") && query == "Alpha"
    ensures !MatchesQuery(l, query)
  {
    AbsentCharacter(l.name, query, 3);
    AbsentCharacter(l.description.value, query, 3);
  }

  /** Over two lists of which exactly the first matches, the search returns
      the first one alone. */
  lemma SearchTwoLists(first: ShoppingList, second: ShoppingList, query: string)
    requires query != "" && first != second
    requires MatchesQuery(first, query) && !MatchesQuery(second, query)
    ensures SearchShoppingLists([first, second], Some(query)) == Success(200, [first])
  {
    var r := SearchShoppingLists([first, second], Some(query));
    assert multiset(r.value) == multiset{first} by {
      assert multiset([first, second]) == multiset{first, second};
    }
    assert |r.value| == 1;
    assert r.value[0] in multiset(r.value);
    assert r.value == [r.value[0]];
  }
}
