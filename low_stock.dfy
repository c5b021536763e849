/**
 * The low-stock test shared by the manager, warehouse and warehouse-manager
 * dashboards: a row is low when its quantity is at most its product's
 * `min_stock`, a missing product (or minimum) counting as 0.
 */
module LowStock {
  import opened Common
  import opened Types

  /** `product?.min_stock || 0` */
  function MinStockOf(inv: Inventory): int {
    match inv.product
    case Some(p) => p.minStock
    case None => 0
  }

  /** `quantity <= (product?.min_stock || 0)` */
  predicate IsLowStock(inv: Inventory) {
    inv.quantity <= MinStockOf(inv)
  }

  /** The low-stock rows of `rows`, in order. */
  function LowStockOf(rows: seq<Inventory>): (r: seq<Inventory>)
    ensures |r| <= |rows|
    ensures forall x :: x in r <==> x in rows && IsLowStock(x)
  {
    Filter(rows, IsLowStock)
  }
}
