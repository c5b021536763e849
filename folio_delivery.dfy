/**
 * Delivery of an approved folio from the warehouse
 * (components/almacen/folio-delivery-list.tsx): every line must be covered by
 * the inventory snapshot the screen holds, then each line's row is set to
 * the snapshot quantity minus the approved quantity, then the folio becomes
 * `entregado` and a history row is added.
 *
 * A null `quantity_approved` behaves as 0 in both the comparison and the
 * subtraction, as JavaScript coerces it. Rows are written by id, and a row's
 * id stands for its (hospital, product) key; an update whose row is gone
 * writes nothing, as an `update ... eq("id", …)` that matches no row.
 */
module FolioDelivery {
  import opened Common
  import opened Types
  import opened Store
  import opened InventoryManagement

  /** `item.quantity_approved`, with null coerced to 0 */
  function Approved(item: FolioItem): int {
    item.quantityApproved.GetOr(0)
  }

  /** `inv && inv.quantity >= item.quantity_approved` for the item's first row */
  predicate HasStock(inventory: seq<Inventory>, item: FolioItem) {
    var inv := GetInventoryByProduct(inventory, item.productId);
    inv.Some? && inv.value.quantity >= Approved(item)
  }

  /** `canDeliverFolio`: every line has a row that covers it. */
  predicate CanDeliverFolio(inventory: seq<Inventory>, items: seq<FolioItem>) {
    forall i :: 0 <= i < |items| ==> HasStock(inventory, items[i])
  }

  /** The index of the first line the snapshot does not cover. */
  function FirstLacking(inventory: seq<Inventory>, items: seq<FolioItem>): (r: Option<nat>)
    ensures r.None? <==> CanDeliverFolio(inventory, items)
    ensures r.Some? ==> (r.value < |items| && !HasStock(inventory, items[r.value])
                         && forall j :: 0 <= j < r.value ==> HasStock(inventory, items[j]))
  {
    if |items| == 0 then None
    else if !HasStock(inventory, items[0]) then Some(0)
    else
      match FirstLacking(inventory, items[1..])
      case None =>
        assert forall i :: 1 <= i < |items| ==> items[i] == items[1..][i - 1];
        None
      case Some(j) =>
        assert forall i :: 1 <= i <= j ==> items[i] == items[1..][i - 1];
        Some(j + 1)
  }

  /** `item.product?.name` in a template literal */
  function ProductName(item: FolioItem): string {
    match item.product
    case Some(p) => p.name
    case None => "undefined"
  }

  function LackMessage(item: FolioItem): string {
    "Stock insuficiente para " + ProductName(item)
  }

  /** The write of one line: its snapshot row's quantity less the approved quantity. */
  function WriteLine(rows: Rows, inventory: seq<Inventory>, item: FolioItem): Rows {
    match GetInventoryByProduct(inventory, item.productId)
    case None => rows
    case Some(inv) =>
      var k := KeyOf(inv);
      if k in rows then rows[k := rows[k].(quantity := inv.quantity - Approved(item))] else rows
  }

  /** The inventory after the write loop has handled `items`, in order. */
  function Deducted(rows: Rows, inventory: seq<Inventory>, items: seq<FolioItem>): (r: Rows)
    ensures r.Keys == rows.Keys
    ensures NonNegative(rows) && CanDeliverFolio(inventory, items) ==> NonNegative(r)
    decreases |items|
  {
    if |items| == 0 then rows
    else
      var prefix := items[..|items| - 1];
      assert forall i :: 0 <= i < |prefix| ==> prefix[i] == items[i];
      WriteLine(Deducted(rows, inventory, prefix), inventory, items[|items| - 1])
  }

  /** The key of the row a line writes, if any: always a row of the line's product. */
  function TargetOf(inventory: seq<Inventory>, item: FolioItem): (r: Option<InvKey>)
    ensures r.Some? ==> r.value.productId == item.productId
  {
    match GetInventoryByProduct(inventory, item.productId)
    case None => None
    case Some(inv) => Some(KeyOf(inv))
  }

  /** The last of the first `n` lines that writes row `k`. */
  function LastWriterBelow(inventory: seq<Inventory>, items: seq<FolioItem>, k: InvKey, n: nat): (r: Option<nat>)
    requires n <= |items|
    ensures r.Some? ==> (r.value < n && TargetOf(inventory, items[r.value]) == Some(k)
                         && forall j :: r.value < j < n ==> TargetOf(inventory, items[j]) != Some(k))
    ensures r.None? ==> forall j :: 0 <= j < n ==> TargetOf(inventory, items[j]) != Some(k)
    decreases n
  {
    if n == 0 then None
    else if TargetOf(inventory, items[n - 1]) == Some(k) then Some(n - 1)
    else LastWriterBelow(inventory, items, k, n - 1)
  }

  /** The last line that writes row `k`. */
  function LastWriter(inventory: seq<Inventory>, items: seq<FolioItem>, k: InvKey): (r: Option<nat>)
    ensures r.Some? ==> (r.value < |items| && TargetOf(inventory, items[r.value]) == Some(k)
                         && forall j :: r.value < j < |items| ==> TargetOf(inventory, items[j]) != Some(k))
    ensures r.None? ==> forall j :: 0 <= j < |items| ==> TargetOf(inventory, items[j]) != Some(k)
  {
    LastWriterBelow(inventory, items, k, |items|)
  }

  /** Lines after the first `n` do not change which of those writes `k` last. */
  lemma {:induction false} LastWriterBelowOfPrefix(inventory: seq<Inventory>, items: seq<FolioItem>, k: InvKey, m: nat, n: nat)
    requires n <= m <= |items|
    ensures LastWriterBelow(inventory, items[..m], k, n) == LastWriterBelow(inventory, items, k, n)
    decreases n
  {
    if n > 0 {
      assert items[..m][n - 1] == items[n - 1];
      LastWriterBelowOfPrefix(inventory, items, k, m, n - 1);
    }
  }

  /**
   * Each row ends at the value the last line targeting it wrote, computed
   * from the snapshot; rows no line targets keep their quantity.
   */
  lemma {:induction false} DeductedAt(rows: Rows, inventory: seq<Inventory>, items: seq<FolioItem>, k: InvKey)
    requires k in rows
    ensures var r := Deducted(rows, inventory, items);
      match LastWriter(inventory, items, k)
      case None => r[k] == rows[k]
      case Some(w) =>
        r[k] == rows[k].(quantity := GetInventoryByProduct(inventory, items[w].productId).value.quantity - Approved(items[w]))
    decreases |items|
  {
    if |items| > 0 {
      var prefix := items[..|items| - 1];
      DeductedAt(rows, inventory, prefix, k);
      LastWriterBelowOfPrefix(inventory, items, k, |items| - 1, |items| - 1);
      WriteLineAt(Deducted(rows, inventory, prefix), inventory, items[|items| - 1], k);
    }
  }

  /** One line's write changes row `k` only when the line targets it, and then to the snapshot value less the line. */
  lemma WriteLineAt(rows: Rows, inventory: seq<Inventory>, item: FolioItem, k: InvKey)
    requires k in rows
    ensures TargetOf(inventory, item) != Some(k) ==> WriteLine(rows, inventory, item)[k] == rows[k]
    ensures TargetOf(inventory, item) == Some(k) ==>
      WriteLine(rows, inventory, item)[k]
        == rows[k].(quantity := GetInventoryByProduct(inventory, item.productId).value.quantity - Approved(item))
  {
  }

  /** No two lines name the same product. */
  predicate DistinctProducts(items: seq<FolioItem>) {
    forall i, j :: 0 <= i < j < |items| ==> items[i].productId != items[j].productId
  }

  /** "Stock después": `(inv?.quantity || 0) - item.quantity_approved` */
  function ProjectedStock(inventory: seq<Inventory>, item: FolioItem): int {
    match GetInventoryByProduct(inventory, item.productId)
    case None => 0 - Approved(item)
    case Some(inv) => inv.quantity - Approved(item)
  }

  /**
   * With distinct products, the row of every line ends at the "stock
   * después" the confirmation dialog showed for it.
   */
  lemma DeliveredStockIsProjected(rows: Rows, inventory: seq<Inventory>, items: seq<FolioItem>, i: nat)
    requires DistinctProducts(items)
    requires i < |items|
    requires TargetOf(inventory, items[i]).Some? && TargetOf(inventory, items[i]).value in rows
    ensures Deducted(rows, inventory, items)[TargetOf(inventory, items[i]).value].quantity
      == ProjectedStock(inventory, items[i])
  {
    var k := TargetOf(inventory, items[i]).value;
    DeductedAt(rows, inventory, items, k);
    var w := LastWriter(inventory, items, k);
    assert w.Some?;
    if w.value != i {
      assert false;
    }
  }

  /**
   * Two lines for the same product are not added up: each write starts from
   * the snapshot, so the row ends at 10 - 3 after lines of 2 and 3, and the
   * first line's deduction is lost.
   */
  lemma DuplicateLinesDeductOnce()
    ensures
      var row := Inventory("r1", "h1", "p1", 10, "", None, None, None, None);
      var items := [FolioItem("i1", "f1", "p1", 2, Some(2), None), FolioItem("i2", "f1", "p1", 3, Some(3), None)];
      var rows := map[InvKey("h1", "p1") := StockRow(10, None)];
      CanDeliverFolio([row], items)
      && Deducted(rows, [row], items)[InvKey("h1", "p1")].quantity == 7
  {
    var row := Inventory("r1", "h1", "p1", 10, "", None, None, None, None);
    var items := [FolioItem("i1", "f1", "p1", 2, Some(2), None), FolioItem("i2", "f1", "p1", 3, Some(3), None)];
    assert items[..1][..0] == [];
  }

  /** What `handleDeliver` leaves on the screen. */
  datatype Delivery = NothingSelected | Delivered | Refused(message: string)

  /** The tables `handleDeliver` writes. */
  datatype Tables = Tables(inventory: Rows, folios: map<string, FolioRequest>, history: seq<FolioHistory>)

  /** The history row of a delivery, whatever the folio's actual status was. */
  function DeliveryEntry(folioId: string, userId: string): FolioHistory {
    FolioHistory(folioId, userId, "Material entregado", Some(AprobadoSupervisor), Some(Entregado), None)
  }

  /**
   * `handleDeliver` on the tables: a folio with an uncovered line is refused
   * with the first such line's message and nothing written; otherwise every
   * line's row is written, then the folio is marked `entregado` at `now`,
   * then the history row is appended. The folio's status is not checked.
   */
  function Deliver(t: Tables, inventory: seq<Inventory>, selected: Option<FolioView>, userId: string, now: string)
    : (r: (Delivery, Tables))
    ensures selected.None? ==> r == (NothingSelected, t)
    ensures selected.Some? ==>
      var items := selected.value.items;
      (r.0 == Delivered <==> CanDeliverFolio(inventory, items))
      && (!CanDeliverFolio(inventory, items) ==>
            r == (Refused(LackMessage(items[FirstLacking(inventory, items).value])), t))
    ensures r.0 == Delivered ==>
      var f := selected.value.folio;
      r.1.history == t.history + [DeliveryEntry(f.id, userId)]
      && r.1.folios.Keys == t.folios.Keys
      && (f.id in t.folios ==> r.1.folios[f.id] == t.folios[f.id].(status := Entregado, updatedAt := now))
      && (forall id :: id in t.folios && id != f.id ==> r.1.folios[id] == t.folios[id])
      && r.1.inventory.Keys == t.inventory.Keys
      && (NonNegative(t.inventory) ==> NonNegative(r.1.inventory))
  {
    match selected
    case None => (NothingSelected, t)
    case Some(view) =>
      match FirstLacking(inventory, view.items)
      case Some(i) => (Refused(LackMessage(view.items[i])), t)
      case None =>
        var f := view.folio;
        var folios := if f.id in t.folios then t.folios[f.id := t.folios[f.id].(status := Entregado, updatedAt := now)] else t.folios;
        (Delivered, Tables(Deducted(t.inventory, inventory, view.items), folios, t.history + [DeliveryEntry(f.id, userId)]))
  }

  /** The inventory after a delivery is exactly the write loop's result. */
  lemma DeliverWritesDeducted(t: Tables, inventory: seq<Inventory>, view: FolioView, userId: string, now: string)
    requires CanDeliverFolio(inventory, view.items)
    ensures Deliver(t, inventory, Some(view), userId, now).1.inventory == Deducted(t.inventory, inventory, view.items)
  {
    assert FirstLacking(inventory, view.items).None?;
  }

  /** The deliver button is shown for an `aprobado_supervisor` folio of an editable list. */
  predicate ShowDeliverButton(readOnly: bool, folio: FolioRequest) {
    !readOnly && folio.status == AprobadoSupervisor
  }

  /** The deliver button is enabled when `canDeliverFolio` holds. */
  predicate DeliverEnabled(inventory: seq<Inventory>, view: FolioView) {
    CanDeliverFolio(inventory, view.items)
  }

  /**
   * A folio reached through an enabled deliver button is delivered and
   * recorded as `aprobado_supervisor` to `entregado`, which is then its true
   * previous status.
   */
  lemma ButtonDeliveryRecordsTruth(t: Tables, inventory: seq<Inventory>, view: FolioView, userId: string, now: string)
    requires ShowDeliverButton(false, view.folio) && DeliverEnabled(inventory, view)
    requires view.folio.id in t.folios && t.folios[view.folio.id].status == view.folio.status
    ensures var r := Deliver(t, inventory, Some(view), userId, now);
      r.0 == Delivered
      && r.1.folios[view.folio.id].status == Entregado
      && r.1.history[|t.history|].previousStatus == Some(t.folios[view.folio.id].status)
  {
  }

  /** The check loop of `handleDeliver`: the first line the snapshot does not cover. */
  method CheckStock(inventory: seq<Inventory>, items: seq<FolioItem>) returns (lacking: Option<nat>)
    ensures lacking == FirstLacking(inventory, items)
  {
    var i := 0;
    while i < |items|
      invariant 0 <= i <= |items|
      invariant forall j :: 0 <= j < i ==> HasStock(inventory, items[j])
    {
      var inv := GetInventoryByProduct(inventory, items[i].productId);
      if inv.None? || inv.value.quantity < Approved(items[i]) {
        assert !HasStock(inventory, items[i]);
        return Some(i);
      }
      i := i + 1;
    }
    return None;
  }

  /** The write loop of `handleDeliver`: each line's row, by the snapshot. */
  method WriteLines(db: Database, inventory: seq<Inventory>, items: seq<FolioItem>)
    modifies db`inventory
    ensures db.inventory == Deducted(old(db.inventory), inventory, items)
  {
    var i := 0;
    while i < |items|
      invariant 0 <= i <= |items|
      invariant db.inventory == Deducted(old(db.inventory), inventory, items[..i])
    {
      assert items[..i + 1][..i] == items[..i];
      var inv := GetInventoryByProduct(inventory, items[i].productId);
      if inv.Some? {
        var k := KeyOf(inv.value);
        if k in db.inventory {
          db.inventory := db.inventory[k := db.inventory[k].(quantity := inv.value.quantity - Approved(items[i]))];
        }
      }
      i := i + 1;
    }
    assert items[..|items|] == items;
  }

  /**
   * `handleDeliver`: the check loop refuses the first uncovered line before
   * anything is written; the write loop sets each line's row; then the
   * folio's status and the history row are written.
   */
  method HandleDeliver(db: Database, inventory: seq<Inventory>, selected: Option<FolioView>, userId: string, now: string)
    returns (outcome: Delivery)
    modifies db`inventory, db`folios, db`history
    ensures (outcome, Tables(db.inventory, db.folios, db.history))
      == Deliver(Tables(old(db.inventory), old(db.folios), old(db.history)), inventory, selected, userId, now)
    ensures old(db.Valid()) ==> db.Valid()
  {
    if selected.None? {
      return NothingSelected;
    }
    var view := selected.value;
    var lacking := CheckStock(inventory, view.items);
    if lacking.Some? {
      return Refused(LackMessage(view.items[lacking.value]));
    }
    WriteLines(db, inventory, view.items);
    var f := view.folio;
    if f.id in db.folios {
      db.folios := db.folios[f.id := db.folios[f.id].(status := Entregado, updatedAt := now)];
    }
    db.history := db.history + [DeliveryEntry(f.id, userId)];
    return Delivered;
  }
}
