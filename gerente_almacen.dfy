/**
 * The warehouse manager's page (components/gerente-almacen/page.tsx): the
 * inventory filter, the dashboard counters, the restock approve and reject
 * actions and the transfer completion, with the guards that decide which
 * rows offer them.
 *
 * Restock requests, purchase orders and transfer orders are `StatusRow`s:
 * only their id and status are read, and a null or missing status is `""`.
 * No selected hospital is `""` too. A status write updates every row whose id
 * matches; its result is not inspected by the page, so a failed write is not
 * part of this model.
 */
module GerenteAlmacen {
  import opened Common
  import opened Types
  import opened LowStock
  import opened Store

  /** `filteredInventory`: every row without a selection, else the rows of that hospital, in order. */
  function FilteredInventory(inventory: seq<Inventory>, sel: string): (r: seq<Inventory>)
    ensures sel == "" ==> r == inventory
    ensures sel != "" ==> forall x :: x in r <==> x in inventory && x.hospitalId == sel
    ensures |r| <= |inventory|
  {
    if sel == "" then inventory
    else Filter(inventory, (x: Inventory) => x.hospitalId == sel)
  }

  /** `lowStockItems`: the low-stock rows among the filtered ones. */
  function LowStockItems(inventory: seq<Inventory>, sel: string): (r: seq<Inventory>)
    ensures forall x :: x in r <==> x in inventory && (sel == "" || x.hospitalId == sel) && IsLowStock(x)
    ensures |r| <= |inventory|
  {
    LowStockOf(FilteredInventory(inventory, sel))
  }

  /** A restock request is pending when it has no status or `pendiente`. */
  predicate RestockPending(row: StatusRow) {
    row.status == "" || row.status == "pendiente"
  }

  /** A purchase order is open when it has no status or one other than `completada` and `cancelada`. */
  predicate PurchaseOrderOpen(row: StatusRow) {
    row.status == "" || row.status !in {"completada", "cancelada"}
  }

  /** A transfer is pending when it has no status, `pendiente` or `en_transito`. */
  predicate TransferPending(row: StatusRow) {
    row.status == "" || row.status in {"pendiente", "en_transito"}
  }

  /** `pendingRestockCount` */
  function PendingRestockCount(requests: seq<StatusRow>): (n: nat)
    ensures n <= |requests|
    ensures n == |requests| <==> forall i :: 0 <= i < |requests| ==> RestockPending(requests[i])
  {
    CountAllIff(requests, RestockPending);
    |Filter(requests, RestockPending)|
  }

  /** `openPurchaseOrderCount` */
  function OpenPurchaseOrderCount(orders: seq<StatusRow>): (n: nat)
    ensures n <= |orders|
    ensures n == |orders| <==> forall i :: 0 <= i < |orders| ==> PurchaseOrderOpen(orders[i])
  {
    CountAllIff(orders, PurchaseOrderOpen);
    |Filter(orders, PurchaseOrderOpen)|
  }

  /** `pendingTransferCount` */
  function PendingTransferCount(transfers: seq<StatusRow>): (n: nat)
    ensures n <= |transfers|
    ensures n == |transfers| <==> forall i :: 0 <= i < |transfers| ==> TransferPending(transfers[i])
  {
    CountAllIff(transfers, TransferPending);
    |Filter(transfers, TransferPending)|
  }

  /** A filter keeps the whole list exactly when its predicate holds everywhere. */
  lemma {:induction false} CountAllIff<T(!new)>(s: seq<T>, p: T -> bool)
    ensures |Filter(s, p)| == |s| <==> forall i :: 0 <= i < |s| ==> p(s[i])
    decreases |s|
  {
    if |s| > 0 {
      var s', x := s[..|s| - 1], s[|s| - 1];
      assert s == s' + [x];
      FilterAppend(s', [x], p);
      assert Filter([x], p) == if p(x) then [x] else [];
      CountAllIff(s', p);
      if forall i :: 0 <= i < |s'| ==> p(s'[i]) {
        if p(x) {
          assert forall i :: 0 <= i < |s| ==> p(s[i]) by {
            forall i | 0 <= i < |s| ensures p(s[i]) {
              if i < |s'| { assert s[i] == s'[i]; }
            }
          }
        }
      } else {
        var j :| 0 <= j < |s'| && !p(s'[j]);
        assert s[j] == s'[j];
      }
    }
  }

  /** The status column as shown: `status || "pendiente"`. */
  function ShownStatus(row: StatusRow): (r: string)
    ensures row.status != "" ==> r == row.status
    ensures r != ""
  {
    if row.status == "" then "pendiente" else row.status
  }

  /** The approve and reject buttons of a restock row. */
  predicate RestockActionsShown(row: StatusRow) {
    row.status == "" || row.status == "pendiente"
  }

  /** The plain status text in the actions cell of a restock row. */
  predicate RestockStatusTextShown(row: StatusRow) {
    row.status != "" && row.status != "pendiente"
  }

  /**
   * Every restock row shows either its buttons or its status text, never
   * both; the buttons appear exactly on the rows the counter calls pending,
   * which are exactly the rows whose shown status is `pendiente`.
   */
  lemma RestockRowShowsOne(row: StatusRow)
    ensures RestockActionsShown(row) != RestockStatusTextShown(row)
    ensures RestockActionsShown(row) <==> RestockPending(row)
    ensures RestockPending(row) <==> ShownStatus(row) == "pendiente"
  {
  }

  /** The "Marcar completada" button of a transfer row. */
  predicate TransferActionShown(row: StatusRow) {
    row.status == "" || row.status in ["pendiente", "en_transito"]
  }

  /** The plain status text in the actions cell of a transfer row. */
  predicate TransferStatusTextShown(row: StatusRow) {
    row.status != "" && row.status !in ["pendiente", "en_transito"]
  }

  /** Every transfer row shows either its button or its status text; the button appears exactly on pending transfers. */
  lemma TransferRowShowsOne(row: StatusRow)
    ensures TransferActionShown(row) != TransferStatusTextShown(row)
    ensures TransferActionShown(row) <==> TransferPending(row)
  {
  }

  /** A finished purchase order is the only kind that is not open; a null status reads as open. */
  lemma PurchaseOrderOpenIff(row: StatusRow)
    ensures PurchaseOrderOpen(row) <==> row.status != "completada" && row.status != "cancelada"
  {
  }

  /** The table after `update({ status }).eq("id", id)`: every row with that id has the new status; nothing else changes. */
  function WithStatus(rows: seq<StatusRow>, id: string, status: string): (r: seq<StatusRow>)
    ensures |r| == |rows|
    ensures forall i :: 0 <= i < |rows| ==> r[i].id == rows[i].id
    ensures forall i :: 0 <= i < |rows| && rows[i].id == id ==> r[i].status == status
    ensures forall i :: 0 <= i < |rows| && rows[i].id != id ==> r[i] == rows[i]
  {
    seq(|rows|, i requires 0 <= i < |rows| => if rows[i].id == id then rows[i].(status := status) else rows[i])
  }

  /** Writing the same status twice is writing it once. */
  lemma WithStatusIdempotent(rows: seq<StatusRow>, id: string, status: string)
    ensures WithStatus(WithStatus(rows, id, status), id, status) == WithStatus(rows, id, status)
  {
  }

  /** The rows with id `id` that `p` accepts. */
  function HasId(id: string, p: StatusRow -> bool): StatusRow -> bool {
    (row: StatusRow) => row.id == id && p(row)
  }

  /**
   * Setting a status that `p` rejects never adds to the `p` count, and takes
   * one off for each row with that id that `p` accepted.
   */
  lemma {:induction false} ClosingCount(rows: seq<StatusRow>, id: string, status: string, p: StatusRow -> bool)
    requires forall row: StatusRow :: !p(row.(status := status))
    ensures |Filter(WithStatus(rows, id, status), p)| + |Filter(rows, HasId(id, p))|
            == |Filter(rows, p)|
    decreases |rows|
  {
    var q := HasId(id, p);
    if |rows| > 0 {
      var rows', x := rows[..|rows| - 1], rows[|rows| - 1];
      var after := WithStatus(rows, id, status);
      assert rows == rows' + [x];
      assert after == WithStatus(rows', id, status) + [after[|rows| - 1]];
      FilterAppend(rows', [x], p);
      FilterAppend(rows', [x], q);
      FilterAppend(WithStatus(rows', id, status), [after[|rows| - 1]], p);
      ClosingCount(rows', id, status, p);
    }
  }

  /** Approving or rejecting a request clears it from the pending count, the others staying as they were. */
  lemma RestockDecisionCount(rows: seq<StatusRow>, id: string, status: string)
    requires status in {"aprobado", "rechazado"}
    ensures PendingRestockCount(WithStatus(rows, id, status))
            + |Filter(rows, HasId(id, RestockPending))| == PendingRestockCount(rows)
    ensures forall i :: 0 <= i < |rows| && rows[i].id == id ==> !RestockActionsShown(WithStatus(rows, id, status)[i])
  {
    ClosingCount(rows, id, status, RestockPending);
  }

  /** Completing a transfer clears it from the pending count and removes its button. */
  lemma TransferCompletionCount(rows: seq<StatusRow>, id: string)
    ensures PendingTransferCount(WithStatus(rows, id, "completada"))
            + |Filter(rows, HasId(id, TransferPending))| == PendingTransferCount(rows)
    ensures forall i :: 0 <= i < |rows| && rows[i].id == id ==> !TransferActionShown(WithStatus(rows, id, "completada")[i])
  {
    ClosingCount(rows, id, "completada", TransferPending);
  }

  /** `handleApproveRestock`: the request's status becomes `aprobado`; the page then refreshes. */
  method HandleApproveRestock(db: Database, id: string) returns (refresh: bool)
    modifies db`restockRequests
    ensures db.restockRequests == WithStatus(old(db.restockRequests), id, "aprobado")
    ensures refresh
  {
    db.restockRequests := WithStatus(db.restockRequests, id, "aprobado");
    refresh := true;
  }

  /** `handleRejectRestock`: the request's status becomes `rechazado`; the page then refreshes. */
  method HandleRejectRestock(db: Database, id: string) returns (refresh: bool)
    modifies db`restockRequests
    ensures db.restockRequests == WithStatus(old(db.restockRequests), id, "rechazado")
    ensures refresh
  {
    db.restockRequests := WithStatus(db.restockRequests, id, "rechazado");
    refresh := true;
  }

  /**
   * `handleCompleteTransfer`: only the transfer's status changes, to
   * `completada`; no stock moves between the hospitals.
   */
  method HandleCompleteTransfer(db: Database, id: string) returns (refresh: bool)
    modifies db`transferOrders
    ensures db.transferOrders == WithStatus(old(db.transferOrders), id, "completada")
    ensures db.inventory == old(db.inventory)
    ensures refresh
  {
    db.transferOrders := WithStatus(db.transferOrders, id, "completada");
    refresh := true;
  }
}
