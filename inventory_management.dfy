/**
 * The hospital inventory ledger of the warehouse screen
 * (components/almacen/inventory-management.tsx): manual stock-in (an upsert
 * on the (hospital, product) row) and stock-out (a bounded decrement that
 * deletes the row when it reaches 0), plus the row lookup and the
 * below-minimum flag of the product cards.
 *
 * The quantity field arrives as the value of `Number(text)`, a JavaScript
 * number (`JsNumber`); a stored quantity is an integer, so a write whose
 * value is not one is refused by the database. An empty expiry date stands
 * for null.
 */
module InventoryManagement {
  import opened Common
  import opened Text
  import opened Types
  import opened Store
  import opened LowStock

  /**
   * What a handler leaves in its dialog: closed on success, one of its own
   * messages, or the database's message for a refused write.
   */
  datatype Outcome = Done | Failed(message: string) | WriteRefused

  const NoHospitalMessage := "Error: No se pudo identificar el hospital del usuario."
  const NoProductMessage := "Selecciona un producto."
  const BadQuantityMessage := "Ingresa una cantidad mayor a 0."
  const NoRowMessage := "No hay inventario registrado para ese producto."

  function OverdrawMessage(stock: int): string {
    "No puedes retirar más de lo disponible. Stock actual: " + IntToString(stock) + "."
  }

  /** A JavaScript number as `Number(text)` returns it. */
  datatype JsNumber = NaN | Finite(value: real) | PosInfinity | NegInfinity

  /** `!qty || qty <= 0` fails exactly for NaN, 0, negative values and minus infinity. */
  predicate IsPositive(qty: JsNumber) {
    (qty.Finite? && qty.value > 0.0) || qty.PosInfinity?
  }

  /** A number the integer `quantity` column accepts. */
  predicate IsInteger(x: JsNumber) {
    x.Finite? && x.value.Floor as real == x.value
  }

  /** Shifting by an integer shifts the floor by the same integer. */
  lemma FloorShift(n: int, v: real)
    ensures (n as real + v).Floor == n + v.Floor
  {
    var f := v.Floor;
    assert f as real <= v < f as real + 1.0;
    assert (n + f) as real <= n as real + v < (n + f) as real + 1.0;
  }

  /** A number is whole exactly when its negation is. */
  lemma WholeNegation(v: real)
    ensures ((-v).Floor as real == -v) <==> (v.Floor as real == v)
  {
    if v.Floor as real == v {
      assert (-v.Floor) as real == -v;
    }
    if (-v).Floor as real == -v {
      assert (-(-v).Floor) as real == v;
    }
  }

  /** `n + x` for a stored quantity `n`. */
  function Plus(n: int, x: JsNumber): (r: JsNumber)
    ensures IsInteger(r) <==> IsInteger(x)
  {
    match x
    case Finite(v) => FloorShift(n, v); Finite(n as real + v)
    case _ => x
  }

  /** `n - x` for a stored quantity `n`. */
  function Minus(n: int, x: JsNumber): (r: JsNumber)
    ensures IsInteger(r) <==> IsInteger(x)
    ensures r == Finite(0.0) <==> x == Finite(n as real)
  {
    match x
    case Finite(v) => FloorShift(n, -v); WholeNegation(v); Finite(n as real - v)
    case PosInfinity => NegInfinity
    case NegInfinity => PosInfinity
    case NaN => NaN
  }

  /** `x > n` for a stored quantity `n`. */
  predicate Exceeds(x: JsNumber, n: int) {
    match x
    case Finite(v) => v > n as real
    case PosInfinity => true
    case _ => false
  }

  /** `addExpiresAt || null` */
  function ExpiresAt(text: string): Option<string> {
    if text == "" then None else Some(text)
  }

  /** `inventory[i]` is the first row of the product. */
  predicate IsFirstFor(inventory: seq<Inventory>, i: int, productId: string) {
    0 <= i < |inventory| && inventory[i].productId == productId
    && forall j :: 0 <= j < i ==> inventory[j].productId != productId
  }

  /** The index of the first row for the product at or after index `i`. */
  function FirstIndexFrom(inventory: seq<Inventory>, productId: string, i: nat): (r: Option<nat>)
    requires i <= |inventory|
    ensures r.Some? ==> i <= r.value < |inventory| && inventory[r.value].productId == productId
    decreases |inventory| - i
  {
    if i == |inventory| then None
    else if inventory[i].productId == productId then Some(i)
    else FirstIndexFrom(inventory, productId, i + 1)
  }

  /** The rows the search passes over are rows of other products. */
  lemma {:induction false} FirstIndexFromSkips(inventory: seq<Inventory>, productId: string, i: nat)
    requires i <= |inventory|
    ensures var r := FirstIndexFrom(inventory, productId, i);
      (r.None? ==> forall j :: i <= j < |inventory| ==> inventory[j].productId != productId)
      && (r.Some? ==> forall j :: i <= j < r.value ==> inventory[j].productId != productId)
    decreases |inventory| - i
  {
    if i < |inventory| && inventory[i].productId != productId {
      FirstIndexFromSkips(inventory, productId, i + 1);
    }
  }

  /** `inventory.find(item => item.product_id === productId)`: the first row for the product. */
  function GetInventoryByProduct(inventory: seq<Inventory>, productId: string): (r: Option<Inventory>)
    ensures r.Some? ==> r.value.productId == productId
  {
    match FirstIndexFrom(inventory, productId, 0)
    case None => None
    case Some(i) => Some(inventory[i])
  }

  /** The search finds the first row of the product, and finds none exactly when no row has that product. */
  lemma GetInventoryByProductIsFirst(inventory: seq<Inventory>, productId: string)
    ensures var r := GetInventoryByProduct(inventory, productId);
      (r.None? <==> forall i :: 0 <= i < |inventory| ==> inventory[i].productId != productId)
      && (r.Some? ==> exists i :: IsFirstFor(inventory, i, productId) && inventory[i] == r.value)
  {
    FirstIndexFromSkips(inventory, productId, 0);
    var f := FirstIndexFrom(inventory, productId, 0);
    if f.Some? {
      assert IsFirstFor(inventory, f.value, productId);
    }
  }

  /**
   * `handleAddInventory` on the `inventory` table: the first failing input
   * check sets its message and writes nothing. A positive quantity that is
   * not an integer (a fraction, or infinity) makes a write the database
   * refuses, and nothing changes. Otherwise the (hospital, product) row gains
   * `qty` and takes the new expiry date, or is inserted with quantity `qty`
   * when there is none. No other row changes.
   */
  function StockIn(rows: Rows, hospitalId: string, productId: string, qty: JsNumber, expiresAt: string)
    : (r: (Outcome, Rows))
    ensures hospitalId == "" ==> r.0 == Failed(NoHospitalMessage)
    ensures hospitalId != "" && productId == "" ==> r.0 == Failed(NoProductMessage)
    ensures hospitalId != "" && productId != "" && !IsPositive(qty) ==> r.0 == Failed(BadQuantityMessage)
    ensures r.0 == WriteRefused <==> hospitalId != "" && productId != "" && IsPositive(qty) && !IsInteger(qty)
    ensures r.0.Done? <==> hospitalId != "" && productId != "" && IsPositive(qty) && IsInteger(qty)
    ensures !r.0.Done? ==> r.1 == rows
    ensures r.0.Done? ==>
      var k := InvKey(hospitalId, productId);
      r.1.Keys == rows.Keys + {k}
      && r.1[k].quantity == StockOf(rows, k) + qty.value.Floor
      && r.1[k].expiresAt == ExpiresAt(expiresAt)
      && forall k' :: k' in rows && k' != k ==> r.1[k'] == rows[k']
    ensures NonNegative(rows) ==> NonNegative(r.1)
  {
    if hospitalId == "" then (Failed(NoHospitalMessage), rows)
    else if productId == "" then (Failed(NoProductMessage), rows)
    else if !IsPositive(qty) then (Failed(BadQuantityMessage), rows)
    else
      var k := InvKey(hospitalId, productId);
      var total := if k in rows then Plus(rows[k].quantity, qty) else qty;
      if !IsInteger(total) then (WriteRefused, rows)
      else (Done, rows[k := StockRow(total.value.Floor, ExpiresAt(expiresAt))])
  }

  /**
   * `handleRemoveInventory` on the `inventory` table: the input checks, then
   * a missing row and a withdrawal above the quantity on hand (infinity
   * included) are refused with nothing written. A withdrawal of the whole
   * quantity deletes the row; a fractional one leaves a difference the
   * database refuses, and nothing changes; a smaller integer one leaves the
   * positive difference. No other row changes.
   */
  function StockOut(rows: Rows, hospitalId: string, productId: string, qty: JsNumber): (r: (Outcome, Rows))
    ensures hospitalId == "" ==> r.0 == Failed(NoHospitalMessage)
    ensures hospitalId != "" && productId == "" ==> r.0 == Failed(NoProductMessage)
    ensures hospitalId != "" && productId != "" && !IsPositive(qty) ==> r.0 == Failed(BadQuantityMessage)
    ensures hospitalId != "" && productId != "" && IsPositive(qty) ==>
      var k := InvKey(hospitalId, productId);
      (k !in rows ==> r.0 == Failed(NoRowMessage))
      && (k in rows && Exceeds(qty, rows[k].quantity) ==> r.0 == Failed(OverdrawMessage(rows[k].quantity)))
    ensures r.0 == WriteRefused <==>
      hospitalId != "" && productId != "" && IsPositive(qty)
      && InvKey(hospitalId, productId) in rows && !Exceeds(qty, rows[InvKey(hospitalId, productId)].quantity)
      && !IsInteger(qty)
    ensures r.0.Done? <==>
      hospitalId != "" && productId != "" && IsPositive(qty) && IsInteger(qty)
      && InvKey(hospitalId, productId) in rows && qty.value.Floor <= rows[InvKey(hospitalId, productId)].quantity
    ensures !r.0.Done? ==> r.1 == rows
    ensures r.0.Done? ==>
      var k := InvKey(hospitalId, productId);
      (rows[k].quantity == qty.value.Floor ==> r.1 == rows - {k})
      && (rows[k].quantity != qty.value.Floor ==>
            r.1.Keys == rows.Keys
            && r.1[k] == rows[k].(quantity := rows[k].quantity - qty.value.Floor)
            && r.1[k].quantity > 0
            && forall k' :: k' in rows && k' != k ==> r.1[k'] == rows[k'])
    ensures NonNegative(rows) ==> NonNegative(r.1)
  {
    if hospitalId == "" then (Failed(NoHospitalMessage), rows)
    else if productId == "" then (Failed(NoProductMessage), rows)
    else if !IsPositive(qty) then (Failed(BadQuantityMessage), rows)
    else
      var k := InvKey(hospitalId, productId);
      if k !in rows then (Failed(NoRowMessage), rows)
      else if Exceeds(qty, rows[k].quantity) then (Failed(OverdrawMessage(rows[k].quantity)), rows)
      else
        var nuevoStock := Minus(rows[k].quantity, qty);
        if nuevoStock == Finite(0.0) then (Done, rows - {k})
        else if !IsInteger(nuevoStock) then (WriteRefused, rows)
        else (Done, rows[k := rows[k].(quantity := nuevoStock.value.Floor)])
  }

  /**
   * Stock-in of `q` followed by stock-out of `q` puts the quantity back: a
   * row that was positive gets its quantity back (keeping the expiry date of
   * the stock-in), a row that did not exist is gone again, and a row at 0 is
   * deleted rather than restored.
   */
  lemma StockInThenOut(rows: Rows, hospitalId: string, productId: string, q: int, expiresAt: string)
    requires NonNegative(rows)
    requires hospitalId != "" && productId != "" && q > 0
    ensures
      var k := InvKey(hospitalId, productId);
      var (added, mid) := StockIn(rows, hospitalId, productId, Finite(q as real), expiresAt);
      var (removed, after) := StockOut(mid, hospitalId, productId, Finite(q as real));
      added == Done && removed == Done
      && (k in rows && rows[k].quantity > 0 ==> after == rows[k := rows[k].(expiresAt := ExpiresAt(expiresAt))])
      && (k in rows && rows[k].quantity == 0 ==> after == rows - {k})
      && (k !in rows ==> after == rows)
  {
    var k := InvKey(hospitalId, productId);
    var (added, mid) := StockIn(rows, hospitalId, productId, Finite(q as real), expiresAt);
    var (removed, after) := StockOut(mid, hospitalId, productId, Finite(q as real));
    assert mid == rows[k := StockRow(StockOf(rows, k) + q, ExpiresAt(expiresAt))];
    if k !in rows {
      assert after == mid - {k};
      assert after == rows;
    }
  }

  /**
   * `handleAddInventory` on the database: the new `inventory` table is
   * `StockIn` of the old one, and non-negative stock stays non-negative.
   */
  method HandleAddInventory(db: Database, hospitalId: string, productId: string, qty: JsNumber, expiresAt: string)
    returns (outcome: Outcome)
    modifies db`inventory
    ensures (outcome, db.inventory) == StockIn(old(db.inventory), hospitalId, productId, qty, expiresAt)
    ensures old(db.Valid()) ==> db.Valid()
  {
    if hospitalId == "" {
      return Failed(NoHospitalMessage);
    }
    if productId == "" {
      return Failed(NoProductMessage);
    }
    if !IsPositive(qty) {
      return Failed(BadQuantityMessage);
    }
    var key := InvKey(hospitalId, productId);
    if key in db.inventory {
      var existing := db.inventory[key];
      var total := Plus(existing.quantity, qty);
      if !IsInteger(total) {
        return WriteRefused;
      }
      db.inventory := db.inventory[key := StockRow(total.value.Floor, ExpiresAt(expiresAt))];
    } else {
      if !IsInteger(qty) {
        return WriteRefused;
      }
      db.inventory := db.inventory[key := StockRow(qty.value.Floor, ExpiresAt(expiresAt))];
    }
    return Done;
  }

  /**
   * `handleRemoveInventory` on the database: the new `inventory` table is
   * `StockOut` of the old one, and non-negative stock stays non-negative.
   */
  method HandleRemoveInventory(db: Database, hospitalId: string, productId: string, qty: JsNumber)
    returns (outcome: Outcome)
    modifies db`inventory
    ensures (outcome, db.inventory) == StockOut(old(db.inventory), hospitalId, productId, qty)
    ensures old(db.Valid()) ==> db.Valid()
  {
    if hospitalId == "" {
      return Failed(NoHospitalMessage);
    }
    if productId == "" {
      return Failed(NoProductMessage);
    }
    if !IsPositive(qty) {
      return Failed(BadQuantityMessage);
    }
    var key := InvKey(hospitalId, productId);
    if key !in db.inventory {
      return Failed(NoRowMessage);
    }
    var existing := db.inventory[key];
    if Exceeds(qty, existing.quantity) {
      return Failed(OverdrawMessage(existing.quantity));
    }
    var nuevoStock := Minus(existing.quantity, qty);
    if nuevoStock == Finite(0.0) {
      db.inventory := db.inventory - {key};
    } else {
      if !IsInteger(nuevoStock) {
        return WriteRefused;
      }
      db.inventory := db.inventory[key := existing.(quantity := nuevoStock.value.Floor)];
    }
    return Done;
  }

  /** The product card's flag: strictly below a numeric `min_quantity`, never without one. */
  predicate IsBelowMin(inv: Inventory) {
    inv.minQuantity.Some? && inv.quantity < inv.minQuantity.value
  }

  /**
   * The card's flag is stricter than the dashboards' low-stock test: with the
   * same minimum, a row below it is low, and a row exactly at it is low
   * without being flagged.
   */
  lemma BelowMinIsLowStock(inv: Inventory)
    requires inv.product.Some? && inv.minQuantity == Some(inv.product.value.minStock)
    ensures IsBelowMin(inv) ==> IsLowStock(inv)
    ensures inv.quantity == inv.product.value.minStock ==> IsLowStock(inv) && !IsBelowMin(inv)
  {
  }
}
