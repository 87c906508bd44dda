/** Handlers of `/statistics`: read-only counts over the three collections
    and the pending-items aggregation. Every handler is a function of the
    collections, so none of them changes the store. */
module StatisticsController {
  import opened Collections
  import opened Records
  import opened Store

  /** GET /statistics/totalShoppingLists: `{ totalShoppingLists }`. */
  function GetTotalShoppingLists(lists: seq<ShoppingList>): (r: Reply<nat>)
    ensures r.Success? && r.status == 200 && r.value == |lists|
  {
    Success(200, |lists|)
  }

  /** GET /statistics/totalItems: `{ totalItems }`. */
  function GetTotalItems(items: seq<Item>): (r: Reply<nat>)
    ensures r.Success? && r.status == 200 && r.value == |items|
  {
    Success(200, |items|)
  }

  /** `ShoppingListItem.countDocuments({ status })`. */
  function CountByStatus(entries: seq<ShoppingListItem>, status: bool): (r: nat)
    ensures r <= |entries|
    ensures r == 0 <==> forall e :: e in entries ==> e.status != status
    ensures r == |entries| <==> forall e :: e in entries ==> e.status == status
  {
    if entries == [] then 0
    else
      assert forall e :: e in entries <==> e == entries[0] || e in entries[1..];
      (if entries[0].status == status then 1 else 0) + CountByStatus(entries[1..], status)
  }

  /** GET /statistics/purchasedItems: `{ purchasedItems }`, the join
      documents with `status = true`. */
  function GetNumberOfPurchasedItems(entries: seq<ShoppingListItem>): (r: Reply<nat>)
    ensures r.Success? && r.status == 200
    ensures r.value <= |entries|
    ensures r.value == 0 <==> forall e :: e in entries ==> !e.status
  {
    Success(200, CountByStatus(entries, true))
  }

  /** GET /statistics/pendingItems: `{ pendingItems }`, the join documents
      with `status = false`. */
  function GetNumberOfPendingItems(entries: seq<ShoppingListItem>): (r: Reply<nat>)
    ensures r.Success? && r.status == 200
    ensures r.value <= |entries|
    ensures r.value == 0 <==> forall e :: e in entries ==> e.status
  {
    Success(200, CountByStatus(entries, false))
  }

  /** Every join document is either purchased or pending: the two counts add
      up to the size of the join collection. */
  lemma {:induction false} PurchasedPlusPending(entries: seq<ShoppingListItem>)
    ensures CountByStatus(entries, true) + CountByStatus(entries, false) == |entries|
  {
    if entries != [] {
      PurchasedPlusPending(entries[1..]);
    }
  }

  /** The count agrees with the size of the result of `find({ status })`. */
  lemma {:induction false} CountIsSizeOfFind(entries: seq<ShoppingListItem>, status: bool)
    ensures CountByStatus(entries, status) == |Filter(entries, (e: ShoppingListItem) => e.status == status)|
  {
    if entries != [] {
      CountIsSizeOfFind(entries[1..], status);
    }
  }


  /** Appending a join document (what the add handler does, with status
      false) adds one to the count of its status and leaves the other. */
  lemma {:induction false} AppendCounts(entries: seq<ShoppingListItem>, e: ShoppingListItem, status: bool)
    ensures CountByStatus(entries + [e], status) == CountByStatus(entries, status) + if e.status == status then 1 else 0
  {
    if entries == [] {
      assert [e][1..] == [];
    } else {
      AppendCounts(entries[1..], e, status);
      assert (entries + [e])[1..] == entries[1..] + [e];
    }
  }

  /** Setting the status of one join document to the other value (what the
      status handler does) moves it from one count to the other. */
  lemma {:induction false} StatusChangeMovesCount(entries: seq<ShoppingListItem>, k: nat, status: bool)
    requires k < |entries| && entries[k].status != status
    ensures var after := entries[k := entries[k].(status := status)];
            && CountByStatus(after, status) == CountByStatus(entries, status) + 1
            && CountByStatus(after, !status) == CountByStatus(entries, !status) - 1
  {
    var after := entries[k := entries[k].(status := status)];
    if k == 0 {
      assert after[1..] == entries[1..];
    } else {
      StatusChangeMovesCount(entries[1..], k - 1, status);
      assert after[1..] == entries[1..][k - 1 := entries[k].(status := status)];
    }
  }

  // ---------------------------------------------------------------------------
  // The pending-items aggregation, stage by stage:
  //   $match { status: false } -> $group by itemId summing quantity
  //   -> $lookup the Item and $unwind it (an inner join) -> $project
  //   -> $sort { totalQuantity: -1 }

  /** One `$group` output document: `{ _id: itemId, totalQuantity }`. */
  datatype PendingTotal = PendingTotal(itemId: Id, totalQuantity: int)

  /** One element of the reply: `{ itemId, itemName, totalQuantity }`. The
      `$project` stage also passes `_id` through, which always equals `itemId`;
      the model leaves that duplicate key out. */
  datatype PendingItem = PendingItem(itemId: Id, itemName: string, totalQuantity: int)

  /** Sum of the quantities of the pending join documents of one item, over
      all lists: the total the aggregation promises for that item. */
  function PendingQuantity(entries: seq<ShoppingListItem>, itemId: Id): (r: int)
    ensures (forall e :: e in entries && e.itemId == itemId ==> e.status) ==> r == 0
  {
    if entries == [] then 0
    else (if !entries[0].status && entries[0].itemId == itemId then entries[0].quantity else 0)
         + PendingQuantity(entries[1..], itemId)
  }

  /** `$match: { status: false }`. */
  function PendingEntries(entries: seq<ShoppingListItem>): (r: seq<ShoppingListItem>)
    ensures |r| <= |entries|
    ensures forall e :: e in r <==> e in entries && !e.status
    ensures r == [] <==> forall e :: e in entries ==> e.status
  {
    Filter(entries, (e: ShoppingListItem) => !e.status)
  }

  /** Sum of the quantities of the documents of `records` for one item. */
  function QuantityOf(records: seq<ShoppingListItem>, itemId: Id): int
  {
    if records == [] then 0
    else (if records[0].itemId == itemId then records[0].quantity else 0) + QuantityOf(records[1..], itemId)
  }

  /** Summing over the `$match` output is summing the pending documents. */
  lemma {:induction false} QuantityOfPending(entries: seq<ShoppingListItem>, itemId: Id)
    ensures QuantityOf(PendingEntries(entries), itemId) == PendingQuantity(entries, itemId)
  {
    if entries != [] {
      QuantityOfPending(entries[1..], itemId);
      assert PendingEntries(entries) ==
             if !entries[0].status then [entries[0]] + PendingEntries(entries[1..]) else PendingEntries(entries[1..]);
    }
  }

  ghost predicate HasRecord(records: seq<ShoppingListItem>, itemId: Id) {
    exists i :: 0 <= i < |records| && records[i].itemId == itemId
  }

  lemma HasRecordCons(records: seq<ShoppingListItem>, itemId: Id)
    requires records != []
    ensures HasRecord(records, itemId) <==> records[0].itemId == itemId || HasRecord(records[1..], itemId)
  {
    if HasRecord(records[1..], itemId) {
      var i :| 0 <= i < |records[1..]| && records[1..][i].itemId == itemId;
      assert records[i + 1].itemId == itemId;
    }
    if HasRecord(records, itemId) && records[0].itemId != itemId {
      var i :| 0 <= i < |records| && records[i].itemId == itemId;
      assert records[1..][i - 1].itemId == itemId;
    }
  }

  /** An item without documents has total 0. */
  lemma {:induction false} QuantityOfAbsent(records: seq<ShoppingListItem>, itemId: Id)
    requires !HasRecord(records, itemId)
    ensures QuantityOf(records, itemId) == 0
  {
    if records != [] {
      HasRecordCons(records, itemId);
      QuantityOfAbsent(records[1..], itemId);
    }
  }

  ghost predicate HasGroup(groups: seq<PendingTotal>, itemId: Id) {
    exists i :: 0 <= i < |groups| && groups[i].itemId == itemId
  }

  ghost predicate UniqueGroupIds(groups: seq<PendingTotal>) {
    forall i, j :: 0 <= i < j < |groups| ==> groups[i].itemId != groups[j].itemId
  }

  /** Fold one document into the running groups: add its quantity to its
      item's group, or open a group for a new item at the end. */
  function Accumulate(groups: seq<PendingTotal>, e: ShoppingListItem): (r: seq<PendingTotal>)
    requires UniqueGroupIds(groups)
    ensures UniqueGroupIds(r)
    ensures |r| == if HasGroup(groups, e.itemId) then |groups| else |groups| + 1
    ensures forall i :: 0 <= i < |groups| ==>
              r[i] == PendingTotal(groups[i].itemId,
                                   groups[i].totalQuantity + if groups[i].itemId == e.itemId then e.quantity else 0)
    ensures !HasGroup(groups, e.itemId) ==> r[|groups|] == PendingTotal(e.itemId, e.quantity)
    ensures forall id :: HasGroup(r, id) <==> id == e.itemId || HasGroup(groups, id)
  {
    match FirstIndex(groups, (g: PendingTotal) => g.itemId == e.itemId)
    case Some(k) =>
      var r := groups[k := groups[k].(totalQuantity := groups[k].totalQuantity + e.quantity)];
      assert forall id :: HasGroup(r, id) ==> HasGroup(groups, id) by {
        forall id | HasGroup(r, id) ensures HasGroup(groups, id) {
          var i :| 0 <= i < |r| && r[i].itemId == id;
          assert groups[i].itemId == id;
        }
      }
      assert forall id :: HasGroup(groups, id) ==> HasGroup(r, id) by {
        forall id | HasGroup(groups, id) ensures HasGroup(r, id) {
          var i :| 0 <= i < |groups| && groups[i].itemId == id;
          assert r[i].itemId == id;
        }
      }
      r
    case None =>
      var r := groups + [PendingTotal(e.itemId, e.quantity)];
      assert !HasGroup(groups, e.itemId);
      assert forall id :: HasGroup(r, id) ==> id == e.itemId || HasGroup(groups, id) by {
        forall id | HasGroup(r, id) ensures id == e.itemId || HasGroup(groups, id) {
          var i :| 0 <= i < |r| && r[i].itemId == id;
          if i < |groups| { assert groups[i].itemId == id; }
        }
      }
      assert forall id :: HasGroup(groups, id) ==> HasGroup(r, id) by {
        forall id | HasGroup(groups, id) ensures HasGroup(r, id) {
          var i :| 0 <= i < |groups| && groups[i].itemId == id;
          assert r[i].itemId == id;
        }
      }
      assert HasGroup(r, e.itemId) by { assert r[|groups|].itemId == e.itemId; }
      r
  }

  /** The facts about `$group` output for `records`, one group per item with
      that item's total. */
  ghost predicate GroupsOf(groups: seq<PendingTotal>, records: seq<ShoppingListItem>) {
    && |groups| <= |records|
    && UniqueGroupIds(groups)
    && (forall id :: HasGroup(groups, id) <==> HasRecord(records, id))
    && (forall i :: 0 <= i < |groups| ==> groups[i].totalQuantity == QuantityOf(records, groups[i].itemId))
  }

  /** Folding the first document into the groups of the others gives the
      groups of all of them. */
  lemma GroupStep(rest: seq<PendingTotal>, records: seq<ShoppingListItem>)
    requires records != [] && GroupsOf(rest, records[1..])
    ensures GroupsOf(Accumulate(rest, records[0]), records)
  {
    var e := records[0];
    var r := Accumulate(rest, e);
    forall id ensures HasGroup(r, id) <==> HasRecord(records, id) {
      HasRecordCons(records, id);
    }
    if !HasGroup(rest, e.itemId) {
      QuantityOfAbsent(records[1..], e.itemId);
    }
  }

  /** `$group: { _id: "$itemId", totalQuantity: { $sum: "$quantity" } }`:
      one group per item, holding the sum of that item's quantities. */
  function GroupByItem(records: seq<ShoppingListItem>): (r: seq<PendingTotal>)
    ensures GroupsOf(r, records)
  {
    if records == [] then []
    else
      var rest := GroupByItem(records[1..]);
      GroupStep(rest, records);
      Accumulate(rest, records[0])
  }

  ghost predicate UniqueRowIds(rows: seq<PendingItem>) {
    forall i, j :: 0 <= i < j < |rows| ==> rows[i].itemId != rows[j].itemId
  }

  /** `$project` of a group and its looked-up Item into a reply row. */
  function RowOf(g: PendingTotal, it: Item): PendingItem {
    PendingItem(g.itemId, it.name, g.totalQuantity)
  }

  /** `$lookup` of each group's Item and `$unwind`: a group whose item does
      not exist yields no row. */
  function JoinItems(groups: seq<PendingTotal>, items: seq<Item>): (r: seq<PendingItem>)
    ensures |r| <= |groups|
    ensures forall row :: row in r <==>
              exists g :: g in groups && LookupItem(items, g.itemId).Some?
                          && row == RowOf(g, LookupItem(items, g.itemId).value)
    ensures UniqueGroupIds(groups) ==> UniqueRowIds(r)
  {
    if groups == [] then []
    else
      var rest := JoinItems(groups[1..], items);
      assert forall g :: g in groups <==> g == groups[0] || g in groups[1..];
      assert UniqueGroupIds(groups) ==> UniqueGroupIds(groups[1..]) by {
        if UniqueGroupIds(groups) {
          forall i, j | 0 <= i < j < |groups[1..]| ensures groups[1..][i].itemId != groups[1..][j].itemId {
            assert groups[1..][i] == groups[i + 1] && groups[1..][j] == groups[j + 1];
          }
        }
      }
      match LookupItem(items, groups[0].itemId)
      case None => rest
      case Some(it) =>
        var row := RowOf(groups[0], it);
        assert UniqueGroupIds(groups) ==> forall x :: x in rest ==> x.itemId != row.itemId by {
          if UniqueGroupIds(groups) {
            forall x | x in rest ensures x.itemId != row.itemId {
              var g :| g in groups[1..] && LookupItem(items, g.itemId).Some?
                       && x == RowOf(g, LookupItem(items, g.itemId).value);
              var j :| 0 <= j < |groups[1..]| && groups[1..][j] == g;
              assert groups[j + 1] == g;
            }
          }
        }
        assert UniqueGroupIds(groups) ==> UniqueRowIds([row] + rest) by {
          if UniqueGroupIds(groups) {
            var r := [row] + rest;
            forall i, j | 0 <= i < j < |r| ensures r[i].itemId != r[j].itemId {
              assert r[j] == rest[j - 1];
              if i > 0 { assert r[i] == rest[i - 1]; }
            }
          }
        }
        [row] + rest
  }

  /** Non-increasing by `totalQuantity`. */
  ghost predicate SortedByTotal(rows: seq<PendingItem>) {
    forall i, j :: 0 <= i < j < |rows| ==> rows[i].totalQuantity >= rows[j].totalQuantity
  }

  lemma ConsSorted(x: PendingItem, rows: seq<PendingItem>)
    requires SortedByTotal(rows)
    requires rows == [] || x.totalQuantity >= rows[0].totalQuantity
    ensures SortedByTotal([x] + rows)
  {
    var r := [x] + rows;
    forall i, j | 0 <= i < j < |r| ensures r[i].totalQuantity >= r[j].totalQuantity {
      assert r[j] == rows[j - 1];
      if i > 0 { assert r[i] == rows[i - 1]; }
    }
  }

  lemma TailSorted(rows: seq<PendingItem>)
    requires rows != [] && SortedByTotal(rows)
    ensures SortedByTotal(rows[1..])
    ensures forall x :: x in rows[1..] ==> x.totalQuantity <= rows[0].totalQuantity
  {
    var tail := rows[1..];
    forall i, j | 0 <= i < j < |tail| ensures tail[i].totalQuantity >= tail[j].totalQuantity {
      assert tail[i] == rows[i + 1] && tail[j] == rows[j + 1];
    }
    forall x | x in tail ensures x.totalQuantity <= rows[0].totalQuantity {
      var k :| 0 <= k < |tail| && tail[k] == x;
      assert rows[k + 1] == x;
    }
  }

  /** Place `row` before the first row whose total does not exceed its own. */
  function Insert(row: PendingItem, sorted: seq<PendingItem>): (r: seq<PendingItem>)
    requires SortedByTotal(sorted)
    ensures |r| == |sorted| + 1
    ensures multiset(r) == multiset(sorted) + multiset{row}
    ensures SortedByTotal(r)
  {
    if sorted == [] || row.totalQuantity >= sorted[0].totalQuantity then
      ConsSorted(row, sorted);
      [row] + sorted
    else
      TailSorted(sorted);
      var rest := Insert(row, sorted[1..]);
      assert rest[0] in multiset(rest);
      assert rest[0] == row || rest[0] in sorted[1..];
      ConsSorted(sorted[0], rest);
      assert sorted == [sorted[0]] + sorted[1..];
      [sorted[0]] + rest
  }

  /** `$sort: { totalQuantity: -1 }`, as an insertion sort; rows with equal
      totals keep their relative order. */
  function SortByTotal(rows: seq<PendingItem>): (r: seq<PendingItem>)
    ensures |r| == |rows|
    ensures SortedByTotal(r)
    ensures multiset(r) == multiset(rows)
  {
    if rows == [] then []
    else
      assert rows == [rows[0]] + rows[1..];
      Insert(rows[0], SortByTotal(rows[1..]))
  }

  /** Inserting a row whose item is new keeps the items unique. */
  lemma {:induction false} InsertKeepsRowIdsUnique(row: PendingItem, sorted: seq<PendingItem>)
    requires SortedByTotal(sorted) && UniqueRowIds(sorted)
    requires forall x :: x in sorted ==> x.itemId != row.itemId
    ensures UniqueRowIds(Insert(row, sorted))
    decreases |sorted|
  {
    if sorted == [] || row.totalQuantity >= sorted[0].totalQuantity {
      var r := [row] + sorted;
      forall i, j | 0 <= i < j < |r| ensures r[i].itemId != r[j].itemId {
        assert r[j] == sorted[j - 1];
        if i > 0 { assert r[i] == sorted[i - 1]; }
      }
    } else {
      var tail := sorted[1..];
      TailSorted(sorted);
      assert UniqueRowIds(tail) by {
        forall i, j | 0 <= i < j < |tail| ensures tail[i].itemId != tail[j].itemId {
          assert tail[i] == sorted[i + 1] && tail[j] == sorted[j + 1];
        }
      }
      InsertKeepsRowIdsUnique(row, tail);
      var rest := Insert(row, tail);
      assert forall x :: x in rest ==> x.itemId != sorted[0].itemId by {
        forall x | x in rest ensures x.itemId != sorted[0].itemId {
          assert x in multiset(rest);
          if x != row {
            assert x in tail;
            var j :| 0 <= j < |tail| && tail[j] == x;
            assert sorted[j + 1] == x;
          }
        }
      }
      var r := [sorted[0]] + rest;
      forall i, j | 0 <= i < j < |r| ensures r[i].itemId != r[j].itemId {
        assert r[j] == rest[j - 1];
        if i > 0 { assert r[i] == rest[i - 1]; }
      }
    }
  }

  /** Sorting keeps the items unique. */
  lemma {:induction false} SortKeepsRowIdsUnique(rows: seq<PendingItem>)
    requires UniqueRowIds(rows)
    ensures UniqueRowIds(SortByTotal(rows))
  {
    if rows != [] {
      var tail := rows[1..];
      assert UniqueRowIds(tail) by {
        forall i, j | 0 <= i < j < |tail| ensures tail[i].itemId != tail[j].itemId {
          assert tail[i] == rows[i + 1] && tail[j] == rows[j + 1];
        }
      }
      SortKeepsRowIdsUnique(tail);
      var sortedTail := SortByTotal(tail);
      forall x | x in sortedTail ensures x.itemId != rows[0].itemId {
        assert x in multiset(sortedTail);
        var j :| 0 <= j < |tail| && tail[j] == x;
        assert rows[j + 1] == x;
      }
      InsertKeepsRowIdsUnique(rows[0], sortedTail);
    }
  }

  /** Sorting keeps exactly the rows it is given. */
  lemma SortKeepsRows(rows: seq<PendingItem>)
    ensures forall x :: x in SortByTotal(rows) <==> x in rows
  {
    var sorted := SortByTotal(rows);
    forall x ensures x in sorted <==> x in rows {
      assert x in sorted <==> x in multiset(sorted);
      assert x in rows <==> x in multiset(rows);
    }
  }

  /** The whole pipeline. */
  function PendingItemsList(items: seq<Item>, entries: seq<ShoppingListItem>): (r: seq<PendingItem>)
    ensures |r| <= |entries|
    ensures SortedByTotal(r)
  {
    SortByTotal(JoinItems(GroupByItem(PendingEntries(entries)), items))
  }

  /** GET /statistics/pendingItemsList: `{ pendingItems }`. */
  function GetAllPendingItems(items: seq<Item>, entries: seq<ShoppingListItem>): (r: Reply<seq<PendingItem>>)
    ensures r.Success? && r.status == 200
    ensures SortedByTotal(r.value)
    ensures |r.value| <= |entries|
  {
    Success(200, PendingItemsList(items, entries))
  }

  /** Each row stands for an item that has an Item document; its name is that
      Item's name and its total is the sum of the item's pending quantities
      over all lists. */
  lemma PendingRowsSound(items: seq<Item>, entries: seq<ShoppingListItem>)
    ensures forall row :: row in PendingItemsList(items, entries) ==>
              && LookupItem(items, row.itemId).Some?
              && row.itemName == LookupItem(items, row.itemId).value.name
              && row.totalQuantity == PendingQuantity(entries, row.itemId)
  {
    var groups := GroupByItem(PendingEntries(entries));
    var joined := JoinItems(groups, items);
    SortKeepsRows(joined);
    forall row | row in PendingItemsList(items, entries)
      ensures row.totalQuantity == PendingQuantity(entries, row.itemId)
    {
      var g :| g in groups && LookupItem(items, g.itemId).Some?
               && row == RowOf(g, LookupItem(items, g.itemId).value);
      var i :| 0 <= i < |groups| && groups[i] == g;
      QuantityOfPending(entries, g.itemId);
    }
  }

  /** A row exists only for an item that has a pending document. */
  lemma PendingRowHasPendingEntry(items: seq<Item>, entries: seq<ShoppingListItem>, row: PendingItem)
    requires row in PendingItemsList(items, entries)
    ensures exists e :: e in entries && !e.status && e.itemId == row.itemId
  {
    var pending := PendingEntries(entries);
    var groups := GroupByItem(pending);
    var joined := JoinItems(groups, items);
    SortKeepsRows(joined);
    var g :| g in groups && LookupItem(items, g.itemId).Some?
             && row == RowOf(g, LookupItem(items, g.itemId).value);
    var i :| 0 <= i < |groups| && groups[i] == g;
    assert HasGroup(groups, g.itemId);
    var j :| 0 <= j < |pending| && pending[j].itemId == row.itemId;
    assert pending[j] in pending;
  }

  /** An item with a pending document and an Item document has a row. */
  lemma PendingEntryHasRow(items: seq<Item>, entries: seq<ShoppingListItem>, e: ShoppingListItem)
    requires e in entries && !e.status && LookupItem(items, e.itemId).Some?
    ensures exists row :: row in PendingItemsList(items, entries) && row.itemId == e.itemId
  {
    var pending := PendingEntries(entries);
    var groups := GroupByItem(pending);
    var joined := JoinItems(groups, items);
    SortKeepsRows(joined);
    assert e in pending;
    var j :| 0 <= j < |pending| && pending[j] == e;
    assert HasRecord(pending, e.itemId);
    var i :| 0 <= i < |groups| && groups[i].itemId == e.itemId;
    assert groups[i] in groups;
    var row := RowOf(groups[i], LookupItem(items, e.itemId).value);
    assert row in joined;
    assert row in PendingItemsList(items, entries);
  }

  /** Every item that has a pending document and an Item document has a row,
      and only such items do. */
  lemma PendingRowsComplete(items: seq<Item>, entries: seq<ShoppingListItem>, itemId: Id)
    ensures (exists row :: row in PendingItemsList(items, entries) && row.itemId == itemId) <==>
            (exists e :: e in entries && !e.status && e.itemId == itemId) && LookupItem(items, itemId).Some?
  {
    if exists row :: row in PendingItemsList(items, entries) && row.itemId == itemId {
      var row :| row in PendingItemsList(items, entries) && row.itemId == itemId;
      PendingRowHasPendingEntry(items, entries, row);
      PendingRowsSound(items, entries);
    }
    if (exists e :: e in entries && !e.status && e.itemId == itemId) && LookupItem(items, itemId).Some? {
      var e :| e in entries && !e.status && e.itemId == itemId;
      PendingEntryHasRow(items, entries, e);
    }
  }

  /** One row per item. */
  lemma PendingRowsUnique(items: seq<Item>, entries: seq<ShoppingListItem>)
    ensures UniqueRowIds(PendingItemsList(items, entries))
  {
    SortKeepsRowIdsUnique(JoinItems(GroupByItem(PendingEntries(entries)), items));
  }

  /** No pending document, no row: the list is empty (not an error). */
  lemma NoPendingNoRows(items: seq<Item>, entries: seq<ShoppingListItem>)
    requires forall e :: e in entries ==> e.status
    ensures PendingItemsList(items, entries) == []
  {
  }

  /** The same item pending in two lists, 5 and 3 units: one row, whose
      total is 8 and whose name is the Item's. */
  lemma PendingAcrossTwoLists(items: seq<Item>, it: Item, listA: Id, listB: Id, idA: Id, idB: Id)
    requires LookupItem(items, it.id) == Some(it)
    ensures var entries := [ShoppingListItem(idA, listA, it.id, 5, false), ShoppingListItem(idB, listB, it.id, 3, false)];
            PendingItemsList(items, entries) == [PendingItem(it.id, it.name, 8)]
  {
    var a := ShoppingListItem(idA, listA, it.id, 5, false);
    var b := ShoppingListItem(idB, listB, it.id, 3, false);
    var entries := [a, b];
    assert entries[1..] == [b];
    assert [b][1..] == [];
    assert PendingEntries(entries) == entries;
    var single := GroupByItem([b]);
    assert single == [PendingTotal(it.id, 3)];
    assert HasGroup(single, it.id) by { assert single[0].itemId == it.id; }
    var groups := GroupByItem(entries);
    assert groups == [PendingTotal(it.id, 8)];
    assert groups[1..] == [];
    assert JoinItems(groups, items) == [PendingItem(it.id, it.name, 8)];
  }
}
