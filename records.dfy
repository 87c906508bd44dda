/** The three document shapes of the store, the replies a handler sends, and
    the validation chains the handlers run before touching the store. */
module Records {
  import opened Collections

  /** An ObjectId as it arrives in a route parameter or a request body. */
  type Id = string

  /** An Item document: `{ name, description? }`. */
  datatype Item = Item(id: Id, name: string, description: Option<string>)

  /** A ShoppingList document: `{ name, description?, createdAt }`;
      `createdAt` is the creation time in milliseconds. */
  datatype ShoppingList = ShoppingList(id: Id, name: string, description: Option<string>, createdAt: int)

  /** A ShoppingListItem join document: `{ shoppingListId, itemId, quantity, status }`. */
  datatype ShoppingListItem = ShoppingListItem(id: Id, shoppingListId: Id, itemId: Id, quantity: int, status: bool)

  /** The JSON key under which an error text is sent: the handlers use
      `{ message: ... }` for some errors and `{ error: ... }` for others. */
  datatype ErrorKey = MessageField | ErrorField

  datatype ApiError = ApiError(status: int, key: ErrorKey, text: string)

  /** An HTTP reply: a status code with a JSON payload, or an error body. */
  datatype Reply<+T> = Success(status: int, value: T) | Failure(error: ApiError)

  const InvalidShoppingListId := ApiError(400, MessageField, "Invalid shopping list ID")
  const InvalidItemId := ApiError(400, MessageField, "Invalid item ID")
  const NameRequired := ApiError(400, ErrorField, "Name is required")
  const QueryRequired := ApiError(400, MessageField, "Query parameter is required")
  const EntryFieldsRequired := ApiError(400, ErrorField, "shoppingListId, itemId, and quantity are required")
  const PairRequired := ApiError(400, ErrorField, "shoppingListId and itemId are required")
  const ShoppingListIdRequired := ApiError(400, ErrorField, "shoppingListId is required")
  const DuplicateEntry := ApiError(400, ErrorField, "Item already exists in the shopping list")
  const EntryNotFound := ApiError(404, ErrorField, "Item not found in the shopping list")
  /** "not found" as the shopping-list and item controllers send it */
  const ShoppingListNotFound := ApiError(404, MessageField, "Shopping List not found")
  const ItemNotFound := ApiError(404, MessageField, "Item not found")
  /** "not found" as the join-table controller sends it */
  const ShoppingListNotFoundError := ApiError(404, ErrorField, "Shopping List not found")
  const ItemNotFoundError := ApiError(404, ErrorField, "Item not found")

  /** JavaScript truthiness of an optional string field: present and non-empty. */
  predicate Truthy(field: Option<string>) {
    field.Some? && field.value != ""
  }

  /** JavaScript truthiness of an optional number field: present and non-zero. */
  predicate TruthyNumber(field: Option<int>) {
    field.Some? && field.value != 0
  }

  /** `ObjectId.isValid` of an optional body field: an absent field is never valid. */
  predicate ValidField(validId: Id -> bool, field: Option<Id>) {
    field.Some? && validId(field.value)
  }

  /** One guard of a handler: if it does not pass, the handler replies `error`. */
  datatype Check = Check(passes: bool, error: ApiError)

  /** The reply of a chain of guards run in order: the error of the first
      guard that does not pass, or None when all pass. */
  function FirstFailure(checks: seq<Check>): (r: Option<ApiError>)
    ensures r.None? <==> forall k :: 0 <= k < |checks| ==> checks[k].passes
    ensures forall k :: 0 <= k < |checks| && !checks[k].passes && (forall j :: 0 <= j < k ==> checks[j].passes)
              ==> r == Some(checks[k].error)
  {
    if checks == [] then None
    else if !checks[0].passes then Some(checks[0].error)
    else FirstFailure(checks[1..])
  }
}
