/**
 * The Supabase tables the client components read and write, as in-memory
 * state. The `inventory` table is keyed by (hospital, product): the screens
 * look a row up by that pair and expect at most one, and a row's id stands
 * for its key. Tables written only by code that is not part of this model
 * are absent.
 */
module Store {
  import opened Common
  import opened Types

  /** The columns of an `inventory` row that the handlers read or write. */
  datatype StockRow = StockRow(quantity: int, expiresAt: Option<string>)

  type Rows = map<InvKey, StockRow>

  /** Every quantity on hand is non-negative. */
  predicate NonNegative(rows: Rows) {
    forall k :: k in rows ==> rows[k].quantity >= 0
  }

  /** The quantity on hand for `k`, 0 when there is no row. */
  function StockOf(rows: Rows, k: InvKey): int {
    if k in rows then rows[k].quantity else 0
  }

  /** A `folio_items` row: what the folio form inserts, plus the approved quantity. */
  datatype ItemRow = ItemRow(
    folioId: string, productId: string, quantityRequested: int, quantityApproved: Option<int>)

  /** A row of a table whose only column read here is its status; `""` stands for a null status. */
  datatype StatusRow = StatusRow(id: string, status: string)

  class Database {
    /** `inventory` */
    var inventory: Rows
    /** `folio_requests`, by id */
    var folios: map<string, FolioRequest>
    /** `folio_items`, in insertion order */
    var folioItems: seq<ItemRow>
    /** `folio_history`, in insertion order */
    var history: seq<FolioHistory>
    /** `hospital_restock_requests`: id and status of each row */
    var restockRequests: seq<StatusRow>
    /** `transfer_orders`: id and status of each row */
    var transferOrders: seq<StatusRow>

    predicate Valid()
      reads this
    {
      NonNegative(inventory)
    }

    constructor()
      ensures inventory == map[] && folios == map[] && folioItems == [] && history == []
      ensures restockRequests == [] && transferOrders == []
      ensures Valid()
    {
      inventory := map[];
      folios := map[];
      folioItems := [];
      history := [];
      restockRequests := [];
      transferOrders := [];
    }
  }
}
