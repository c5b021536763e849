/**
 * The warehouse summary (components/almacen/almacen-dashboard.tsx): the
 * folios waiting for delivery and those delivered, the low-stock rows and
 * the short list of the first five with its "...y N más" line, and the
 * warehouse user's own hospital as the only, selected, hospital.
 */
module AlmacenDashboard {
  import opened Common
  import opened Types
  import opened LowStock
  import opened RoleShell

  predicate AwaitingDelivery(f: FolioRequest) {
    f.status == AprobadoSupervisor
  }

  predicate WasDelivered(f: FolioRequest) {
    f.status == Entregado
  }

  /** `pendingDelivery` */
  function PendingDelivery(folios: seq<FolioRequest>): (r: seq<FolioRequest>)
    ensures forall f :: f in r <==> f in folios && f.status == AprobadoSupervisor
  {
    Filter(folios, AwaitingDelivery)
  }

  /** `delivered` */
  function Delivered(folios: seq<FolioRequest>): (r: seq<FolioRequest>)
    ensures forall f :: f in r <==> f in folios && f.status == Entregado
  {
    Filter(folios, WasDelivered)
  }

  /** The two counters never share a folio and together count at most every folio. */
  lemma DeliveryCountersDisjoint(folios: seq<FolioRequest>)
    ensures forall f :: f in PendingDelivery(folios) ==> f !in Delivered(folios)
    ensures |PendingDelivery(folios)| + |Delivered(folios)| <= |folios|
  {
    ExclusiveCountsBounded(folios, AwaitingDelivery, WasDelivered, (f: FolioRequest) => false);
  }

  /** How many low-stock rows the summary lists by name. */
  const ListedLowStock := 5

  /** `lowStockList`: the first five low-stock rows (all of them when fewer). */
  function LowStockList(inventory: seq<Inventory>): (r: seq<Inventory>)
    ensures |r| == if |LowStockOf(inventory)| < ListedLowStock then |LowStockOf(inventory)| else ListedLowStock
    ensures r == LowStockOf(inventory)[..|r|]
  {
    Take(LowStockOf(inventory), ListedLowStock)
  }

  /** The "...y N más" line: shown only when rows were left out, with their number. */
  function MoreLine(inventory: seq<Inventory>): (r: Option<nat>)
    ensures r.Some? <==> |LowStockOf(inventory)| > ListedLowStock
    ensures r.Some? ==> r.value == |LowStockOf(inventory)| - ListedLowStock && r.value > 0
  {
    var low := LowStockOf(inventory);
    var shown := LowStockList(inventory);
    if |low| > |shown| then Some(|low| - |shown|) else None
  }

  /**
   * The listed rows followed by the rows the "más" line counts are exactly
   * the low-stock rows, and every listed row is low.
   */
  lemma ListAndMoreCoverLowStock(inventory: seq<Inventory>)
    ensures |LowStockList(inventory)| + MoreLine(inventory).GetOr(0) == |LowStockOf(inventory)|
    ensures forall x :: x in LowStockList(inventory) ==> x in inventory && IsLowStock(x)
  {
    var low := LowStockOf(inventory);
    var shown := LowStockList(inventory);
    forall x | x in shown ensures x in low {
      var i :| 0 <= i < |shown| && shown[i] == x;
      assert x == low[i];
    }
  }

  /**
   * The warehouse user's hospital list is the user's own hospital when the
   * user has both a hospital id and a joined hospital, and that hospital is
   * the selected one; otherwise there is no hospital and no selection.
   */
  lemma HospitalOfWarehouse(user: User)
    ensures var hs := OwnHospitalList(user);
      (user.hospital.Some? && user.hospitalId != "" ==>
         hs == [HospitalRef(user.hospitalId, user.hospital.value.name)] && FirstId(hs) == Some(user.hospitalId))
      && (user.hospital.None? || user.hospitalId == "" ==> hs == [] && FirstId(hs) == None)
  {
    OwnHospitalSelected(user);
  }
}
