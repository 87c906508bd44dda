# Shopping-List-App backend controllers, modelled in Dafny

The backend of the Shopping-List-App is an Express server over a MongoDB store
with three collections:
- **Item**: `{ name, description? }`;
- **ShoppingList**: `{ name, description?, createdAt }`;
- **ShoppingListItem**: the join collection, records `{ shoppingListId, itemId, quantity, status }`, with `status` false by default.

Four controllers turn HTTP requests into replies:
- **Item CRUD** (`itemController.ts`).
- **ShoppingList CRUD, reverse lookup and search** (`shoppingListController.ts`). The reverse lookup returns "the lists that hold an item". The search is a case-insensitive match on name or description.
- **Membership of items in lists** (`shoppingListItemController.ts`): add, remove, partial updates, and a listing with each item populated.
- **Statistics** (`statisticsController.ts`): document counts, plus a pending-items aggregation. The aggregation runs `$match` → `$group` → `$lookup` → `$unwind` → `$project` → `$sort`.

The model keeps each handler's own shape.
- Handlers with several guards list them, in source order, as a sequence of `Check`s: the add, remove, update and listing handlers of the membership controller and the update and delete handlers of the item and list controllers. `Records.FirstFailure` picks the reply, so the first guard that fails decides the status code exactly as in the source. The existence guards in these chains stand for the store calls that make them (`findById`, `findOne({ shoppingListId, itemId })` for the pair and duplicate guards, and the `null` result of `findByIdAndUpdate` or `findByIdAndDelete`).
- The create handlers, the get-by-id handlers, the reverse lookup and search test their guards with a plain `if` or `match`, in the same order as the source. The get-all handlers and the statistics handlers have no guard.
- The store is a class, `Store.Database`, with one sequence field per collection. Each field is in insertion order.
- Handlers that change a collection are methods. Each method has `modifies` on exactly the field it changes. Its `ensures` gives the reply and the whole new state in terms of the old one.
- Read-only handlers are functions over the collections. This covers the item and list lookups, the reverse lookup, search, the listing of a list's items, and every statistics handler. No statistics handler can change any table, because each one is a function of the collections.
- Most operations also have a partner lemma. The read-only handlers and the partial updates state their promise in their own `ensures`: the get-all handlers, the document counts, the reverse lookup, the listing of a list's items and the quantity update. The partners are:
  - create-then-get, update-then-get and delete-then-get round trips;
  - add-then-remove restoring the join collection;
  - the duplicate-pair invariant;
  - the counts adding up;
  - a reference definition of the pending totals, with the aggregation proved sound and complete against it.

Some values come from outside the handlers:
- `mongoose.Types.ObjectId.isValid` is an abstract predicate `validId`, fixed when the store is built.
- The `_id` the store assigns to a new document is an argument of the create and add methods. So is the clock reading that becomes `createdAt`. A requires states that a new `_id` is fresh.

## Model

Module `Collections` holds the store primitives. `Records` holds documents, replies and guard chains. `Store` holds lookups, invariants and the `Database` class. `TextMatch` holds case-insensitive matching. Then there is one module per controller.

| member | source | states |
|---|---|---|
| Collections.FirstIndex | src/backend/controllers/shoppingListItemController.ts:48 | `findOne`: the position of the first matching document in store order; none exactly when no document matches |
| Collections.Filter | src/backend/controllers/shoppingListItemController.ts:156 | `find`: exactly the matching documents, each as often as in the collection, never more than the collection holds; empty exactly when none matches |
| Collections.RemoveAt | src/backend/controllers/shoppingListItemController.ts:93 | `deleteOne`: one document fewer; those before it keep their positions and those after it move up by one; the multiset loses exactly that document |
| Records.Truthy | src/backend/controllers/itemController.ts:47 | JavaScript truthiness of an optional string field, as `!name` and `!query` test it: present and not empty |
| Records.TruthyNumber | src/backend/controllers/shoppingListItemController.ts:31 | JavaScript truthiness of an optional number field, as `!quantity` tests it: present and not zero |
| Records.ValidField | src/backend/controllers/shoppingListItemController.ts:26 | `ObjectId.isValid` of an optional body field: an absent field is never valid |
| Records.FirstFailure | src/backend/controllers/shoppingListItemController.ts:21-52 | a guard chain replies with the error of the first guard that fails, and passes exactly when every guard passes |
| Store.IndexOfItem | src/backend/controllers/itemController.ts:32 | `Item.findById`: a position holding that id, or none exactly when no item has it |
| Store.IndexOfList | src/backend/controllers/shoppingListController.ts:34 | `ShoppingList.findById`: a position holding that id, or none exactly when no list has it |
| Store.IndexOfPair | src/backend/controllers/shoppingListItemController.ts:48 | `findOne({ shoppingListId, itemId })`: the first join document linking the pair, with none linking it before; none exactly when no join document links it |
| Store.LookupItem | src/backend/controllers/statisticsController.ts:62-69 | `$lookup` of one Item: a stored Item with that id, or none exactly when no Item has it |
| Store.EntriesOfList | src/backend/controllers/shoppingListItemController.ts:156 | `find({ shoppingListId })`: exactly the list's join documents, with their multiplicities |
| Store.EntriesOfItem | src/backend/controllers/shoppingListController.ts:128 | `find({ itemId })`: exactly the item's join documents, with their multiplicities |
| Store.ItemIdChecks | src/backend/controllers/itemController.ts:96-104 | the guards of the delete handler: a malformed id gives 400 "Invalid item ID"; a well-formed id with no stored item gives 404 "Item not found"; otherwise every guard passes |
| Store.ListIdChecks | src/backend/controllers/shoppingListController.ts:99-107 | the guards of the delete handler: a malformed id gives 400 "Invalid shopping list ID"; a well-formed id with no stored list gives 404 "Shopping List not found"; otherwise every guard passes |
| Store.Database.constructor | src/backend/models/shoppingListItems.ts:12-17 | a store starts with three empty collections and keeps the ObjectId predicate it is given; `Valid()` asks for unique `_id`s only, not for unique (list, item) pairs, because this schema declares no unique index |
| Store.FilterKeepsListIdsUnique | src/backend/controllers/shoppingListController.ts:137 | selecting lists from a collection with unique `_id`s yields unique `_id`s, so no list is returned twice |
| TextMatch.LowerChar | src/backend/controllers/shoppingListController.ts:156 | the `i` option on one character: an ASCII capital becomes its lower-case letter, code point plus 32, and every other character is kept |
| TextMatch.Lower | src/backend/controllers/shoppingListController.ts:156 | the `i` option: lower-cases each ASCII letter and keeps every other character, position by position |
| TextMatch.Contains | src/backend/controllers/shoppingListController.ts:156 | substring search: true exactly when the needle occurs at some position of the text |
| TextMatch.ContainsIgnoringCase | src/backend/controllers/shoppingListController.ts:156-157 | `$regex` with option `i` for a literal query: true exactly when the query occurs at some position with letter case ignored |
| TextMatch.ContainsItself | src/backend/controllers/shoppingListController.ts:156 | every text matches itself (used to show that a list is found by its own name) as a query |
| TextMatch.AbsentCharacter | src/backend/controllers/shoppingListController.ts:156 | a text that lacks one of the query's characters, in either case, does not match |
| ItemController.GetAllItems | src/backend/controllers/itemController.ts:16-23 | 200 with every Item, in store order |
| ItemController.GetItemById | src/backend/controllers/itemController.ts:25-41 | a malformed id gives 400 "Invalid item ID"; an unknown one gives 404 "Item not found"; success exactly when the id is well-formed and stored, and then it returns that item |
| ItemController.CreateItem | src/backend/controllers/itemController.ts:43-62 | a missing or empty name gives 400 "Name is required" with the collection unchanged; otherwise exactly one new Item is appended and returned with 201; ids stay unique |
| ItemController.UpdateItemChecks | src/backend/controllers/itemController.ts:67-86 | the guards of the update handler in source order: a malformed id gives 400 "Invalid item ID" before the name is looked at; then a missing or empty name gives 400 "Name is required"; then an id with no stored item gives 404 "Item not found" |
| ItemController.Renamed | src/backend/controllers/itemController.ts:77-82 | `findByIdAndUpdate` keeps the id and sets the name; it sets the description when one is sent and keeps the stored one otherwise |
| ItemController.UpdateItem | src/backend/controllers/itemController.ts:64-91 | the id is checked first, then the name, then existence; a failure leaves the collection as it was; success replaces that one item by its renamed form and returns it with 200 |
| ItemController.DeleteItem | src/backend/controllers/itemController.ts:93-109 | 400 or 404 leave everything unchanged; otherwise 204 and exactly that item is removed; lists and join documents are untouched |
| ItemController.DeleteRemovesOnlyThatItem | src/backend/controllers/itemController.ts:100 | with unique ids, after the delete no item has the deleted id and every other item is still there |
| ItemController.CreatedItemIsFound | src/backend/controllers/itemController.ts:57 | a created item is then returned by `GET /items/:id` |
| ItemController.UpdatedItemIsFound | src/backend/controllers/itemController.ts:82 | after an update, `GET /items/:id` returns the updated document |
| ItemController.DeletedItemIsGone | src/backend/controllers/itemController.ts:100-104 | after a delete, `GET /items/:id` returns 404 "Item not found" |
| ShoppingListController.GetAllShoppingLists | src/backend/controllers/shoppingListController.ts:18-25 | 200 with every list, in store order |
| ShoppingListController.GetShoppingListById | src/backend/controllers/shoppingListController.ts:27-43 | a malformed id gives 400 "Invalid shopping list ID"; an unknown one gives 404 "Shopping List not found"; success exactly when the list exists, and then it returns that list |
| ShoppingListController.CreateShoppingList | src/backend/controllers/shoppingListController.ts:45-64 | a missing or empty name gives 400 with the collection unchanged; otherwise one list is appended with the given name and description and the creation time, and returned with 201 |
| ShoppingListController.UpdateShoppingListChecks | src/backend/controllers/shoppingListController.ts:69-89 | the guards of the update handler in source order: a malformed id gives 400 "Invalid shopping list ID"; then a missing or empty name gives 400 "Name is required"; then an id with no stored list gives 404 "Shopping List not found" |
| ShoppingListController.Renamed | src/backend/controllers/shoppingListController.ts:80-85 | the update keeps the id and `createdAt` and sets the name; it sets the description when one is sent |
| ShoppingListController.UpdateShoppingList | src/backend/controllers/shoppingListController.ts:66-94 | the id is checked before the name, and existence last; on success only that list changes |
| ShoppingListController.DeleteShoppingList | src/backend/controllers/shoppingListController.ts:96-112 | 400 or 404 leave everything unchanged; otherwise 204 and only that list is removed; its join documents stay (no cascade) |
| ShoppingListController.ListIdsOf | src/backend/controllers/shoppingListController.ts:135 | one list id per join document, covering exactly the lists those documents name |
| ShoppingListController.ListsWithIds | src/backend/controllers/shoppingListController.ts:137 | `$in`: exactly the stored lists whose id is among the given ids, each once |
| ShoppingListController.GetShoppingListsByItem | src/backend/controllers/shoppingListController.ts:114-143 | 400 for a malformed item id and 404 for an unknown item; otherwise 200 with exactly the lists that some join document links to the item, each once, and an empty array when there is none |
| ShoppingListController.MatchesQuery | src/backend/controllers/shoppingListController.ts:154-159 | the `$or` filter: a list matches exactly when the query occurs, letter case ignored, in its name or in its description when it has one |
| ShoppingListController.SearchShoppingLists | src/backend/controllers/shoppingListController.ts:145-170 | a missing or empty query gives 400 "Query parameter is required" before the store is read; otherwise 200 with exactly the lists whose name or description contains the query, ignoring case; no match is an empty array |
| ShoppingListController.CreatedListIsFound | src/backend/controllers/shoppingListController.ts:59 | a created list is then returned by `GET /shoppingLists/:id` |
| ShoppingListController.UpdatedListIsFound | src/backend/controllers/shoppingListController.ts:85 | after an update, `GET /shoppingLists/:id` returns the updated document |
| ShoppingListController.DeletedListIsGone | src/backend/controllers/shoppingListController.ts:103-107 | after a delete, `GET /shoppingLists/:id` returns 404 "Shopping List not found" |
| ShoppingListController.SearchFindsNameMatch | src/backend/controllers/shoppingListController.ts:154-159 | a list whose name holds the query in any letter case is among the results |
| ShoppingListController.SearchFindsOwnName | src/backend/controllers/shoppingListController.ts:154-159 | searching for a list's full, non-empty name returns a reply that includes that list |
| ShoppingListController.AlphaMatchesAlpha | src/backend/tests/shoppingLists.test.ts:152-161 | the query "Alpha" matches the list named "List Alpha" |
| ShoppingListController.BetaMissesAlpha | src/backend/tests/shoppingLists.test.ts:152-161 | "Alpha" matches neither "List Beta" nor "Description Beta" |
| ShoppingListController.SearchTwoLists | src/backend/controllers/shoppingListController.ts:154-166 | over two lists of which only the first matches, the search returns exactly the first, as in the search test |
| ShoppingListItemController.AddItemToShoppingList | src/backend/controllers/shoppingListItemController.ts:16-66 | the six guards run in source order, and the first that fails decides the reply with the join collection unchanged. Otherwise exactly one document is appended, with the list, item and quantity and status false, and returned with 201. Pair uniqueness is preserved |
| ShoppingListItemController.AddItemChecks | src/backend/controllers/shoppingListItemController.ts:21-52 | the guards of the add handler in source order and the error each one gives: a malformed list id, then a malformed or missing item id, then a missing field or zero quantity, then a missing list, then a missing item, then a duplicate pair; none fires exactly when the add goes ahead |
| ShoppingListItemController.AddItemAccepted | src/backend/controllers/shoppingListItemController.ts:21-52 | an add passes every guard exactly when both ids are well-formed and present, the quantity is truthy, the list and the item exist, and no join document links them yet |
| ShoppingListItemController.SecondAddRejected | src/backend/controllers/shoppingListItemController.ts:48-52 | after a successful add, adding the same pair again fails: with "Item already exists in the shopping list", or at the required-fields guard when its quantity is falsy |
| ShoppingListItemController.PairChecks | src/backend/controllers/shoppingListItemController.ts:72-91 | the guards shared by remove and the partial updates (also at lines 105-124, 168-187 and 203-222): a malformed list id gives 400 "Invalid shopping list ID", then a malformed item id 400 "Invalid item ID", then an empty id 400 with the "are required" error, then a pair no join document links 404 "Item not found in the shopping list" |
| ShoppingListItemController.PairAccepted | src/backend/controllers/shoppingListItemController.ts:72-91 | the remove and update guards pass exactly when both ids are well-formed and non-empty and a join document links the pair |
| ShoppingListItemController.RemoveItemFromShoppingList | src/backend/controllers/shoppingListItemController.ts:68-98 | each failure leaves the collection unchanged, and a missing pair gives 404 "Item not found in the shopping list". On success exactly the pair's first document is removed, with 200 "Item removed from shopping list" |
| ShoppingListItemController.AddThenRemoveRestores | src/backend/controllers/shoppingListItemController.ts:54-94 | removing a pair straight after adding it passes the guards and removes exactly the added document, giving back the previous collection |
| ShoppingListItemController.RemovedPairIsGone | src/backend/controllers/shoppingListItemController.ts:87-93 | while pairs are unique, a removed pair is no longer found, so a second remove is a 404 |
| ShoppingListItemController.Patched | src/backend/controllers/shoppingListItemController.ts:126-127 | a supplied quantity or status replaces the stored one, an absent one keeps it, and the ids never change |
| ShoppingListItemController.UpdateShoppingListItem | src/backend/controllers/shoppingListItemController.ts:100-134 | same guards as remove, with the store unchanged on failure; on success only the pair's document changes, and in it only the supplied fields |
| ShoppingListItemController.UpdateShoppingListItemStatus | src/backend/controllers/shoppingListItemController.ts:163-196 | only the `status` of the pair's document can change |
| ShoppingListItemController.UpdateShoppingListItemQuantity | src/backend/controllers/shoppingListItemController.ts:198-231 | only the `quantity` of the pair's document can change |
| ShoppingListItemController.Populate | src/backend/controllers/shoppingListItemController.ts:156 | `populate('itemId')`: the document's other fields are kept; the item is the stored Item with that id, or null exactly when none exists |
| ShoppingListItemController.PopulateAll | src/backend/controllers/shoppingListItemController.ts:156 | populates a result set position by position, keeping its length |
| ShoppingListItemController.ListChecks | src/backend/controllers/shoppingListItemController.ts:140-154 | the guards of the listing handler: a malformed id gives 400 "Invalid shopping list ID", then an empty id 400 "shoppingListId is required", then a list that does not exist 404 "Shopping List not found" |
| ShoppingListItemController.GetItemsInShoppingList | src/backend/controllers/shoppingListItemController.ts:136-161 | 400 or 404 come from the first failing guard. Success happens exactly when the list exists; then the reply holds the list's join documents, position by position, each with its item populated |
| StatisticsController.GetTotalShoppingLists | src/backend/controllers/statisticsController.ts:15-22 | 200 with the number of lists |
| StatisticsController.GetTotalItems | src/backend/controllers/statisticsController.ts:24-31 | 200 with the number of items |
| StatisticsController.CountByStatus | src/backend/controllers/statisticsController.ts:35 | `countDocuments({ status })`: never more than the collection; 0 exactly when no document has that status; all of them exactly when every document does |
| StatisticsController.GetNumberOfPurchasedItems | src/backend/controllers/statisticsController.ts:33-40 | 200 with the number of purchased documents; 0 exactly when none is purchased |
| StatisticsController.GetNumberOfPendingItems | src/backend/controllers/statisticsController.ts:42-49 | 200 with the number of pending documents; 0 exactly when all are purchased |
| StatisticsController.PurchasedPlusPending | src/backend/controllers/statisticsController.ts:35-44 | the purchased and pending counts add up to the size of the join collection |
| StatisticsController.CountIsSizeOfFind | src/backend/controllers/statisticsController.ts:44 | the count equals the number of documents `find({ status })` returns |
| StatisticsController.AppendCounts | src/backend/controllers/shoppingListItemController.ts:54-61 | an added document (status false) raises the count of its status by one and leaves the other count |
| StatisticsController.StatusChangeMovesCount | src/backend/controllers/shoppingListItemController.ts:189 | flipping one document's status moves it from one count to the other |
| StatisticsController.PendingQuantity | src/backend/controllers/statisticsController.ts:54-60 | reference definition of the total the aggregation promises: the sum of the quantities of the pending join documents of one item, over all lists; an item with no pending join document sums to 0 |
| StatisticsController.PendingEntries | src/backend/controllers/statisticsController.ts:54 | `$match`: exactly the pending documents; empty exactly when every document is purchased |
| StatisticsController.QuantityOf | src/backend/controllers/statisticsController.ts:58 | the per-group `$sum`: the sum of the quantities of the given documents that belong to one item |
| StatisticsController.QuantityOfPending | src/backend/controllers/statisticsController.ts:54-58 | summing an item's quantities over the `$match` output equals its pending total over all lists |
| StatisticsController.QuantityOfAbsent | src/backend/controllers/statisticsController.ts:58 | an item without documents sums to 0 |
| StatisticsController.Accumulate | src/backend/controllers/statisticsController.ts:55-60 | folds one document into the groups: its item's group gains its quantity, or a new group opens; items stay unique |
| StatisticsController.GroupStep | src/backend/controllers/statisticsController.ts:55-60 | folding the first document into the groups of the rest gives the groups of all of them |
| StatisticsController.GroupByItem | src/backend/controllers/statisticsController.ts:55-60 | `$group`: one group per item that has a document, no other groups, each holding the sum of its item's quantities |
| StatisticsController.RowOf | src/backend/controllers/statisticsController.ts:70-76 | `$project` of a group and its unwound Item: the group's item id, the Item's name and the group's total |
| StatisticsController.JoinItems | src/backend/controllers/statisticsController.ts:62-76 | `$lookup` + `$unwind` + `$project`: a group whose item is missing is dropped; the others give one row each, with the Item's name; unique items stay unique |
| StatisticsController.Insert | src/backend/controllers/statisticsController.ts:77 | inserting into a list sorted by descending total keeps it sorted and adds exactly that row |
| StatisticsController.SortByTotal | src/backend/controllers/statisticsController.ts:77 | `$sort: { totalQuantity: -1 }`: non-increasing totals, and a permutation of its input |
| StatisticsController.InsertKeepsRowIdsUnique | src/backend/controllers/statisticsController.ts:77 | inserting the row of a new item keeps every item to one row |
| StatisticsController.SortKeepsRowIdsUnique | src/backend/controllers/statisticsController.ts:77 | sorting keeps every item to one row |
| StatisticsController.SortKeepsRows | src/backend/controllers/statisticsController.ts:77 | sorting neither adds nor drops a row |
| StatisticsController.PendingItemsList | src/backend/controllers/statisticsController.ts:53-78 | the whole pipeline: sorted by descending total, and never more rows than join documents |
| StatisticsController.GetAllPendingItems | src/backend/controllers/statisticsController.ts:51-84 | 200 with the pipeline's rows, sorted by descending total |
| StatisticsController.PendingRowsSound | src/backend/controllers/statisticsController.ts:53-78 | each row's item has an Item document; its name is that Item's name, and its total is the sum of the item's pending quantities over all lists |
| StatisticsController.PendingRowHasPendingEntry | src/backend/controllers/statisticsController.ts:54-60 | a row exists only for an item with a pending document |
| StatisticsController.PendingEntryHasRow | src/backend/controllers/statisticsController.ts:54-69 | every item with a pending document and an Item document has a row |
| StatisticsController.PendingRowsComplete | src/backend/controllers/statisticsController.ts:53-78 | an item has a row exactly when it has a pending document and an Item document |
| StatisticsController.PendingRowsUnique | src/backend/controllers/statisticsController.ts:55-60 | each item appears at most once |
| StatisticsController.NoPendingNoRows | src/backend/controllers/statisticsController.ts:54 | with no pending document the list is empty |
| StatisticsController.PendingAcrossTwoLists | src/backend/tests/statistics.test.ts:121-151 | one item pending in two lists with 5 and 3 units gives the single row with total 8 and the Item's name |

## Left out

- The exact rules of `ObjectId.isValid` are left out; it stays an abstract predicate `validId`. The tests fix two cases, "invalid-id" (invalid) and 24 zeros (valid), and the model assumes neither.
- The `!shoppingListId` and `!itemId` guards run after `isValid`. With the real `isValid` they can never fire, since an empty string is not a valid ObjectId. The model keeps them as written, because `validId` is abstract.
- The store's own mechanics are not modelled:
  - ObjectId generation, the `Date.now` clock and the casting of id strings to ObjectIds are left out. A new `_id` and the creation time are arguments, and ids are compared as strings.
  - `populate` internals are left out. A join document's item becomes the Item with that id, or null.
- In search, regular-expression metacharacters in the query are out of scope. The query is read as a literal string, and case folding covers ASCII letters only.
- The `handleErrors` 500 replies are uncaught store and runtime failures. They are not modelled.
- Requests are sequential in the model. The duplicate check of the add handler can race with a concurrent add across its `await` points, and this is not modelled.
- Quantities are integers. JSON numbers may be fractional, and non-integer quantities are not modelled.
- Request fields are typed in the model: ids, names, descriptions and queries are strings, the quantity is an integer and the status a boolean. A JSON value of another type is not modelled. For example, a quantity of `"0"` passes the `!quantity` guard and Mongoose casts it to the number 0, and a `name` of `123` is stored as the string "123"; the model cannot express either request.
- The `_id` key of each pending-items row is left out. The `$project` stage passes it through, and it always equals the row's `itemId`.
- The update handlers are modelled for Mongoose 6 or later, as `config/database.ts` suggests: it calls `mongoose.connect` without the connection options that Mongoose 5 expected. There, a key of the update document whose value is `undefined` is dropped, so an omitted field keeps its stored value. Mongoose 5 would instead set such a field to `null`.
- Some source behaviours are modelled as they appear in the code:
  - The add handler accepts any truthy quantity, including a negative one. The model does the same, and does not require it to be positive.
  - Express sends no body with a 204 reply. The model still carries the handler's message as the reply value.
  - `updateShoppingListItem` has no route. It is modelled as the handler it is, and the status and quantity handlers are modelled through it.
- StatisticsController.GroupByItem: the order of the `$group` output is not promised by MongoDB; the model's fold fixes one order, and no property depends on it.
- StatisticsController.SortByTotal: `$sort` does not promise an order among rows with equal totals; the model uses a stable insertion sort, and only the non-increasing order and the permutation are stated.
- StatisticsController.PendingItemsList: MongoDB's `$sum` adds numbers as floating point or 64-bit integers; the model's totals are unbounded integers and ignore overflow.
- Not modelled at all: the frontend, the routes and server setup, the configuration, the seed script and the nearby-supermarket controller. The last one is a call to an external web service.
