/**
 * The receipt endpoint `POST` of app/api/procesar-folio/route.ts: a hospital
 * accepts or rejects what the warehouse sent for a folio.
 *
 * The endpoint works on its own tables (`folios`, `folio_items` with
 * `cantidad_entregada`, `inventario_hospital` with a nullable
 * `stock_actual`), held by `ReceiptStore`. The JSON body is a `Body` (`None`
 * when `request.json()` throws or the body is `null`); absent or falsy
 * strings are "". JSON numbers are reals. Which database call fails, if
 * any, is the parameter `fault`; the clock is the parameter `now`.
 */
module ProcesarFolio {
  import opened Common
  import opened Types

  /** One element of `body.items`; `None` is an absent or null number. */
  datatype ItemPayload = ItemPayload(
    itemId: string, insumoId: string, cantidadSolicitada: Option<real>, cantidadRecibida: Option<real>)

  /** `body.items`: absent or falsy, an array, or some other truthy value. */
  datatype ItemsField = Missing | List(elements: seq<ItemPayload>) | NotAList

  datatype Body = Body(folioId: string, hospitalId: string, accion: string, items: ItemsField)

  /** The JSON response: `{ ok: true, status }` or `{ error }` with its HTTP code. */
  datatype HttpResult = Ok(status: FolioStatus) | Err(code: nat, message: string)

  /** The database call that fails, if any; the `at` index is the position in `items`. */
  datatype Fault =
    | NoFault
    | FolioWriteFails
    | ItemsResetFails
    | ItemWriteFails(at: nat)
    | StockReadFails(at: nat)
    | StockWriteFails(at: nat)

  datatype FolioRow = FolioRow(status: FolioStatus, updatedAt: string)
  datatype ItemRow = ItemRow(folioId: string, cantidadEntregada: Option<int>)

  /** `folios`, `folio_items` and `inventario_hospital` (keyed by hospital and `insumo_id`). */
  datatype Tables = Tables(
    folios: map<string, FolioRow>, items: map<string, ItemRow>, stock: map<InvKey, Option<int>>)

  const InvalidMessage := "Parámetros inválidos."
  const RejectFailedMessage := "No se pudo marcar el folio como rechazado."
  const ItemFailedMessage := "No se pudo actualizar la información del folio."
  const ReadFailedMessage := "No se pudo leer el inventario."
  const UpdateFailedMessage := "No se pudo actualizar el inventario."
  const InsertFailedMessage := "No se pudo crear el registro de inventario."
  const StatusFailedMessage := "No se pudo actualizar el estado del folio."
  const InternalMessage := "Error interno al procesar el folio."

  /** The call of the accept loop that failed. */
  datatype CallFailure = ItemWrite | StockRead | StockUpdate | StockInsert

  /** The message the endpoint answers for each failed call of the loop. */
  function FailureMessage(f: CallFailure): string {
    match f
    case ItemWrite => ItemFailedMessage
    case StockRead => ReadFailedMessage
    case StockUpdate => UpdateFailedMessage
    case StockInsert => InsertFailedMessage
  }

  /** `Math.max(0, Math.floor(x || 0))` */
  function Normalize(x: Option<real>): nat {
    match x
    case None => 0
    case Some(v) => if v.Floor < 0 then 0 else v.Floor
  }

  /** The normalised quantity is 0 for a missing value or one below 1, and otherwise the largest integer not above it. */
  lemma NormalizeIsFloor(x: Option<real>)
    ensures x.None? ==> Normalize(x) == 0
    ensures x.Some? && x.value < 1.0 ==> Normalize(x) == 0
    ensures x.Some? && x.value >= 0.0 ==> Normalize(x) as real <= x.value < Normalize(x) as real + 1.0
  {
  }

  /** `recibida !== item.cantidadSolicitada` fails for this item. */
  predicate Matches(item: ItemPayload) {
    item.cantidadSolicitada == Some(Normalize(item.cantidadRecibida) as real)
  }

  /** The final value of `esCompleto`. */
  predicate Complete(items: seq<ItemPayload>) {
    forall i :: 0 <= i < |items| ==> Matches(items[i])
  }

  /** `stock_actual || 0` of the row for `k`, 0 when there is no row. */
  function StockValue(stock: map<InvKey, Option<int>>, k: InvKey): int {
    if k in stock then stock[k].GetOr(0) else 0
  }

  /** `update(...).eq("id", folioId)` on `folios`: nothing happens when no row matches. */
  function SetStatus(t: Tables, folioId: string, status: FolioStatus, now: string): (r: Tables)
    ensures r.items == t.items && r.stock == t.stock && r.folios.Keys == t.folios.Keys
    ensures folioId in t.folios ==> r.folios[folioId] == FolioRow(status, now)
    ensures forall id :: id in t.folios && id != folioId ==> r.folios[id] == t.folios[id]
  {
    if folioId in t.folios then t.(folios := t.folios[folioId := FolioRow(status, now)]) else t
  }

  /** `update({ cantidad_entregada: 0 }).eq("folio_id", folioId)` */
  function ResetItems(items: map<string, ItemRow>, folioId: string): (r: map<string, ItemRow>)
    ensures r.Keys == items.Keys
    ensures forall id :: id in items && items[id].folioId == folioId ==> r[id] == items[id].(cantidadEntregada := Some(0))
    ensures forall id :: id in items && items[id].folioId != folioId ==> r[id] == items[id]
  {
    map id | id in items :: if items[id].folioId == folioId then items[id].(cantidadEntregada := Some(0)) else items[id]
  }

  /**
   * One turn of the accept loop for the item at position `at`: record its
   * normalised quantity on its `folio_items` row (by id), read the hospital's
   * row for the product, then add to it or, when there is none and something
   * arrived, insert it. The second component is the first failing call.
   */
  function ReceiveItem(t: Tables, hospitalId: string, item: ItemPayload, at: nat, fault: Fault)
    : (r: (Tables, Option<CallFailure>))
  {
    var recibida := Normalize(item.cantidadRecibida);
    if fault == ItemWriteFails(at) then (t, Some(ItemWrite))
    else
      var t1 := if item.itemId in t.items
        then t.(items := t.items[item.itemId := t.items[item.itemId].(cantidadEntregada := Some(recibida))])
        else t;
      if fault == StockReadFails(at) then (t1, Some(StockRead))
      else
        var k := InvKey(hospitalId, item.insumoId);
        if k in t1.stock then
          if fault == StockWriteFails(at) then (t1, Some(StockUpdate))
          else (t1.(stock := t1.stock[k := Some(t1.stock[k].GetOr(0) + recibida)]), None)
        else if recibida > 0 then
          if fault == StockWriteFails(at) then (t1, Some(StockInsert))
          else (t1.(stock := t1.stock[k := Some(recibida)]), None)
        else (t1, None)
  }

  /** The accept loop over the first `n` items, stopping at the first error. */
  function AcceptUpTo(t: Tables, hospitalId: string, items: seq<ItemPayload>, n: nat, fault: Fault)
    : (r: (Tables, Option<CallFailure>))
    requires n <= |items|
    decreases n
  {
    if n == 0 then (t, None)
    else
      var prev := AcceptUpTo(t, hospitalId, items, n - 1, fault);
      if prev.1.Some? then prev
      else ReceiveItem(prev.0, hospitalId, items[n - 1], n - 1, fault)
  }

  /** The accept loop over all of `items`. */
  function Accept(t: Tables, hospitalId: string, items: seq<ItemPayload>, fault: Fault)
    : (r: (Tables, Option<CallFailure>))
  {
    AcceptUpTo(t, hospitalId, items, |items|, fault)
  }

  /**
   * The accept loop never writes `folios`, never deletes an inventory row
   * and never lowers a stock level, whichever call fails and wherever it
   * stops.
   */
  lemma AcceptMonotone(t: Tables, hospitalId: string, items: seq<ItemPayload>, n: nat, fault: Fault)
    requires n <= |items|
    ensures Grows(t, AcceptUpTo(t, hospitalId, items, n, fault).0)
  {
    var after := AcceptUpTo(t, hospitalId, items, n, fault).0;
    AcceptKeepsFolios(t, hospitalId, items, n, fault);
    forall k ensures KeepsRow(t, after, k) {
      AcceptKeepsRow(t, hospitalId, items, n, fault, k);
    }
  }

  /** `after` has the folios of `t` and every inventory row of `t`, at no lower stock. */
  ghost predicate Grows(t: Tables, after: Tables) {
    after.folios == t.folios && forall k :: KeepsRow(t, after, k)
  }

  /** `AcceptMonotone` for `folios`. */
  lemma {:induction false} AcceptKeepsFolios(t: Tables, hospitalId: string, items: seq<ItemPayload>, n: nat, fault: Fault)
    requires n <= |items|
    ensures AcceptUpTo(t, hospitalId, items, n, fault).0.folios == t.folios
    decreases n
  {
    if n > 0 {
      AcceptKeepsFolios(t, hospitalId, items, n - 1, fault);
    }
  }

  /** `after` still has the row `k` of `t`, at no lower stock. */
  predicate KeepsRow(t: Tables, after: Tables, k: InvKey) {
    k in t.stock ==> k in after.stock && StockValue(after.stock, k) >= StockValue(t.stock, k)
  }

  /** Keeping a row is transitive. */
  lemma KeepsRowTransitive(a: Tables, b: Tables, c: Tables, k: InvKey)
    ensures KeepsRow(a, b, k) && KeepsRow(b, c, k) ==> KeepsRow(a, c, k)
  {
  }

  /** `AcceptMonotone` for the inventory row `k`. */
  lemma {:induction false} AcceptKeepsRow(t: Tables, hospitalId: string, items: seq<ItemPayload>, n: nat, fault: Fault, k: InvKey)
    requires n <= |items|
    ensures KeepsRow(t, AcceptUpTo(t, hospitalId, items, n, fault).0, k)
    decreases n
  {
    if n > 0 {
      var prev := AcceptUpTo(t, hospitalId, items, n - 1, fault);
      var cur := AcceptUpTo(t, hospitalId, items, n, fault);
      AcceptKeepsRow(t, hospitalId, items, n - 1, fault, k);
      AcceptStepKeepsRow(t, hospitalId, items, n, fault, k);
      KeepsRowTransitive(t, prev.0, cur.0, k);
    }
  }

  /** One more item of the loop, errors included, keeps the row `k`. */
  lemma AcceptStepKeepsRow(t: Tables, hospitalId: string, items: seq<ItemPayload>, n: nat, fault: Fault, k: InvKey)
    requires 0 < n <= |items|
    ensures KeepsRow(AcceptUpTo(t, hospitalId, items, n - 1, fault).0, AcceptUpTo(t, hospitalId, items, n, fault).0, k)
  {
    var prev := AcceptUpTo(t, hospitalId, items, n - 1, fault);
    if prev.1.None? {
      ReceiveItemKeepsRow(prev.0, hospitalId, items[n - 1], n - 1, fault, k);
    }
  }

  /** One turn of the loop deletes no inventory row and lowers no stock level. */
  lemma ReceiveItemKeepsRow(t: Tables, hospitalId: string, item: ItemPayload, at: nat, fault: Fault, k: InvKey)
    ensures KeepsRow(t, ReceiveItem(t, hospitalId, item, at, fault).0, k)
  {
  }

  /** The items the endpoint works on, or `None` when `items` is not an array. */
  function ItemsOf(b: Body): Option<seq<ItemPayload>> {
    match b.items
    case Missing => Some([])
    case List(s) => Some(s)
    case NotAList => None
  }

  predicate ValidParameters(b: Body) {
    b.folioId != "" && b.hospitalId != "" && b.accion != "" && ItemsOf(b).Some?
  }

  /**
   * `POST` as a function: the response and the tables afterwards. The contract states the
   * parameter check and that each path writes only what it should.
   */
  function Respond(t: Tables, request: Option<Body>, now: string, fault: Fault): (r: (HttpResult, Tables))
    ensures request.None? ==> r == (Err(500, InternalMessage), t)
    ensures request.Some? && !ValidParameters(request.value) ==> r == (Err(400, InvalidMessage), t)
    ensures r.0.Err? && (request.None? || request.value.accion == "rechazar") ==> r.1 == t
    ensures r.0.Err? ==> r.1.folios == t.folios
    ensures r.0.Ok? ==> (request.Some? && ValidParameters(request.value)
                         && (r.0.status == Rechazado <==> request.value.accion == "rechazar"))
  {
    match request
    case None => (Err(500, InternalMessage), t)
    case Some(b) =>
      if !ValidParameters(b) then (Err(400, InvalidMessage), t)
      else if b.accion == "rechazar" then
        if fault == FolioWriteFails then (Err(500, RejectFailedMessage), t)
        else
          var t1 := SetStatus(t, b.folioId, Rechazado, now);
          if fault == ItemsResetFails then (Ok(Rechazado), t1)
          else (Ok(Rechazado), t1.(items := ResetItems(t1.items, b.folioId)))
      else
        var items := ItemsOf(b).value;
        var (t1, error) := Accept(t, b.hospitalId, items, fault);
        AcceptMonotone(t, b.hospitalId, items, |items|, fault);
        if error.Some? then (Err(500, FailureMessage(error.value)), t1)
        else
          var status := if Complete(items) then Entregado else EntregadoParcial;
          if fault == FolioWriteFails then (Err(500, StatusFailedMessage), t1)
          else (Ok(status), SetStatus(t1, b.folioId, status, now))
  }

  // ---------------------------------------------------------------------
  // Properties of the endpoint
  // ---------------------------------------------------------------------

  /**
   * Rejection marks the folio `rechazado`, sets every delivered quantity of
   * the folio's items to 0 and leaves the inventory and every other row as
   * they were.
   */
  lemma RejectPath(t: Tables, b: Body, now: string)
    requires ValidParameters(b) && b.accion == "rechazar"
    ensures var (res, after) := Respond(t, Some(b), now, NoFault);
      res == Ok(Rechazado)
      && after.stock == t.stock
      && (b.folioId in t.folios ==> after.folios[b.folioId].status == Rechazado)
      && (forall id :: id in t.folios && id != b.folioId ==> after.folios[id] == t.folios[id])
      && after.items.Keys == t.items.Keys
      && (forall id :: id in t.items ==>
            after.items[id] == if t.items[id].folioId == b.folioId then t.items[id].(cantidadEntregada := Some(0)) else t.items[id])
  {
  }

  /** Accepting classifies the delivery: `entregado` exactly when every item matched. */
  lemma AcceptStatus(t: Tables, b: Body, now: string)
    requires ValidParameters(b) && b.accion != "rechazar"
    ensures var (res, after) := Respond(t, Some(b), now, NoFault);
      res.Ok?
      && (res.status == Entregado <==> Complete(ItemsOf(b).value))
      && (res.status == EntregadoParcial <==> !Complete(ItemsOf(b).value))
      && (b.folioId in t.folios ==> b.folioId in after.folios && after.folios[b.folioId].status == res.status)
  {
    NoFaultNoError(t, b.hospitalId, ItemsOf(b).value, |ItemsOf(b).value|);
    AcceptMonotone(t, b.hospitalId, ItemsOf(b).value, |ItemsOf(b).value|, NoFault);
  }

  /** An acceptance with no items at all is a complete delivery. */
  lemma EmptyAcceptIsComplete(t: Tables, folioId: string, hospitalId: string, accion: string, now: string)
    requires folioId != "" && hospitalId != "" && accion != "" && accion != "rechazar"
    ensures Respond(t, Some(Body(folioId, hospitalId, accion, Missing)), now, NoFault)
      == (Ok(Entregado), SetStatus(t, folioId, Entregado, now))
    ensures Respond(t, Some(Body(folioId, hospitalId, accion, List([]))), now, NoFault)
      == (Ok(Entregado), SetStatus(t, folioId, Entregado, now))
  {
  }

  /** With no failing call the loop ends without an error. */
  lemma {:induction false} NoFaultNoError(t: Tables, hospitalId: string, items: seq<ItemPayload>, n: nat)
    requires n <= |items|
    ensures AcceptUpTo(t, hospitalId, items, n, NoFault).1 == None
    decreases n
  {
    if n > 0 {
      NoFaultNoError(t, hospitalId, items, n - 1);
    }
  }

  /** What arrived of product `p` over the first `n` items. */
  function Received(items: seq<ItemPayload>, n: nat, p: string): nat
    requires n <= |items|
    decreases n
  {
    if n == 0 then 0
    else Received(items, n - 1, p) + (if items[n - 1].insumoId == p then Normalize(items[n - 1].cantidadRecibida) else 0)
  }

  /**
   * Without faults, each of the hospital's rows ends at its old stock (null
   * as 0) plus what arrived of its product, a row exists afterwards exactly
   * when it existed before or something of its product arrived, and the rows
   * of other hospitals are untouched.
   */
  lemma AcceptStock(t: Tables, hospitalId: string, items: seq<ItemPayload>, n: nat)
    requires n <= |items|
    ensures var after := AcceptUpTo(t, hospitalId, items, n, NoFault).0;
      (forall k: InvKey :: k.hospitalId == hospitalId ==>
         StockValue(after.stock, k) == StockValue(t.stock, k) + Received(items, n, k.productId)
         && (k in after.stock <==> k in t.stock || Received(items, n, k.productId) > 0))
      && (forall k: InvKey :: k.hospitalId != hospitalId ==> (k in after.stock <==> k in t.stock))
      && (forall k: InvKey :: k.hospitalId != hospitalId && k in t.stock ==> after.stock[k] == t.stock[k])
  {
    var after := AcceptUpTo(t, hospitalId, items, n, NoFault).0;
    forall k: InvKey | k.hospitalId == hospitalId
      ensures StockValue(after.stock, k) == StockValue(t.stock, k) + Received(items, n, k.productId)
      ensures k in after.stock <==> k in t.stock || Received(items, n, k.productId) > 0
    {
      AcceptStockOf(t, hospitalId, items, n, k.productId);
    }
    forall k: InvKey | k.hospitalId != hospitalId
      ensures k in after.stock <==> k in t.stock
      ensures k in t.stock ==> after.stock[k] == t.stock[k]
    {
      AcceptOtherRow(t, hospitalId, items, n, k);
    }
  }

  /** `AcceptStock` for the hospital's row of product `p`. */
  lemma {:induction false} AcceptStockOf(t: Tables, hospitalId: string, items: seq<ItemPayload>, n: nat, p: string)
    requires n <= |items|
    ensures var after := AcceptUpTo(t, hospitalId, items, n, NoFault).0; var k := InvKey(hospitalId, p);
      StockValue(after.stock, k) == StockValue(t.stock, k) + Received(items, n, p)
      && (k in after.stock <==> k in t.stock || Received(items, n, p) > 0)
    decreases n
  {
    if n > 0 {
      AcceptStockOf(t, hospitalId, items, n - 1, p);
      NoFaultNoError(t, hospitalId, items, n - 1);
      ReceiveItemStockOf(AcceptUpTo(t, hospitalId, items, n - 1, NoFault).0, hospitalId, items[n - 1], n - 1, p);
    }
  }

  /** `AcceptStock` for a row `k` of another hospital. */
  lemma {:induction false} AcceptOtherRow(t: Tables, hospitalId: string, items: seq<ItemPayload>, n: nat, k: InvKey)
    requires n <= |items| && k.hospitalId != hospitalId
    ensures var after := AcceptUpTo(t, hospitalId, items, n, NoFault).0;
      (k in after.stock <==> k in t.stock) && (k in t.stock ==> after.stock[k] == t.stock[k])
    decreases n
  {
    if n > 0 {
      AcceptOtherRow(t, hospitalId, items, n - 1, k);
    }
  }

  /** One turn without faults adds the quantity received to the hospital's row of the item's product. */
  lemma ReceiveItemStockOf(t: Tables, hospitalId: string, item: ItemPayload, at: nat, p: string)
    ensures var after := ReceiveItem(t, hospitalId, item, at, NoFault); var k := InvKey(hospitalId, p);
      var arrived := if item.insumoId == p then Normalize(item.cantidadRecibida) else 0;
      after.1.None?
      && StockValue(after.0.stock, k) == StockValue(t.stock, k) + arrived
      && (k in after.0.stock <==> k in t.stock || arrived > 0)
  {
  }

  /** The quantity recorded by the last of the first `n` items that names the row `id`, if any does. */
  function LastRecorded(items: seq<ItemPayload>, n: nat, id: string): Option<nat>
    requires n <= |items|
    decreases n
  {
    if n == 0 then None
    else if items[n - 1].itemId == id then Some(Normalize(items[n - 1].cantidadRecibida))
    else LastRecorded(items, n - 1, id)
  }

  /** A `folio_items` row after the loop: the last quantity written to it, or as it was. */
  function RecordedRow(row: ItemRow, last: Option<nat>): ItemRow {
    if last.Some? then row.(cantidadEntregada := Some(last.value)) else row
  }

  /**
   * Without faults, the loop writes `cantidad_entregada` by id and adds no
   * row: every `folio_items` row that some item names ends with the
   * normalised quantity of the last item naming it, and every other row is
   * unchanged (an id that matches no row writes nothing).
   */
  lemma AcceptRecordsItems(t: Tables, hospitalId: string, items: seq<ItemPayload>, n: nat)
    requires n <= |items|
    ensures var after := AcceptUpTo(t, hospitalId, items, n, NoFault).0;
      after.items.Keys == t.items.Keys
      && (forall id :: id in t.items && LastRecorded(items, n, id).Some? ==>
            after.items[id] == t.items[id].(cantidadEntregada := Some(LastRecorded(items, n, id).value)))
      && (forall id :: id in t.items && LastRecorded(items, n, id).None? ==> after.items[id] == t.items[id])
  {
    var after := AcceptUpTo(t, hospitalId, items, n, NoFault).0;
    forall id
      ensures id in after.items <==> id in t.items
      ensures id in t.items ==> after.items[id] == RecordedRow(t.items[id], LastRecorded(items, n, id))
    {
      AcceptItemOf(t, hospitalId, items, n, id);
    }
    assert after.items.Keys == t.items.Keys;
  }

  /** `AcceptRecordsItems` for the row `id`. */
  lemma {:induction false} AcceptItemOf(t: Tables, hospitalId: string, items: seq<ItemPayload>, n: nat, id: string)
    requires n <= |items|
    ensures var after := AcceptUpTo(t, hospitalId, items, n, NoFault).0;
      (id in after.items <==> id in t.items)
      && (id in t.items ==> after.items[id] == RecordedRow(t.items[id], LastRecorded(items, n, id)))
    decreases n
  {
    if n > 0 {
      AcceptItemOf(t, hospitalId, items, n - 1, id);
      NoFaultNoError(t, hospitalId, items, n - 1);
      ReceiveItemRecords(AcceptUpTo(t, hospitalId, items, n - 1, NoFault).0, hospitalId, items[n - 1], n - 1, id);
    }
  }

  /** One turn without faults writes the item's normalised quantity to the row it names, and to no other. */
  lemma ReceiveItemRecords(t: Tables, hospitalId: string, item: ItemPayload, at: nat, id: string)
    ensures var after := ReceiveItem(t, hospitalId, item, at, NoFault);
      after.1.None?
      && (id in after.0.items <==> id in t.items)
      && (id in t.items ==>
            after.0.items[id] == if item.itemId == id then t.items[id].(cantidadEntregada := Some(Normalize(item.cantidadRecibida)))
                                 else t.items[id])
  {
  }

  /**
   * A failed call ends the loop: once the first `n` items have produced an
   * error, every longer run produces the same tables and error.
   */
  lemma {:induction false} ErrorStops(t: Tables, hospitalId: string, items: seq<ItemPayload>, n: nat, m: nat, fault: Fault)
    requires n <= m <= |items|
    requires AcceptUpTo(t, hospitalId, items, n, fault).1.Some?
    ensures AcceptUpTo(t, hospitalId, items, m, fault) == AcceptUpTo(t, hospitalId, items, n, fault)
    decreases m
  {
    if n < m {
      ErrorStops(t, hospitalId, items, n, m - 1, fault);
    }
  }

  /** Before the failing position, a fault has no effect. */
  lemma {:induction false} FaultLater(t: Tables, hospitalId: string, items: seq<ItemPayload>, n: nat, fault: Fault, at: nat)
    requires fault == ItemWriteFails(at) || fault == StockReadFails(at) || fault == StockWriteFails(at)
    requires n <= at && n <= |items|
    ensures AcceptUpTo(t, hospitalId, items, n, fault) == AcceptUpTo(t, hospitalId, items, n, NoFault)
    decreases n
  {
    if n > 0 {
      FaultLater(t, hospitalId, items, n - 1, fault, at);
    }
  }

  /**
   * When the `folio_items` write of item `at` fails, the response is a 500,
   * the folio keeps its status, and the items before `at` have been fully
   * recorded and added to the inventory.
   */
  lemma ItemFailureKeepsEarlierWrites(t: Tables, b: Body, now: string, at: nat)
    requires ValidParameters(b) && b.accion != "rechazar"
    requires at < |ItemsOf(b).value|
    ensures var items := ItemsOf(b).value;
      Respond(t, Some(b), now, ItemWriteFails(at))
      == (Err(500, ItemFailedMessage), AcceptUpTo(t, b.hospitalId, items, at, NoFault).0)
  {
    var items := ItemsOf(b).value;
    var fault := ItemWriteFails(at);
    var before := AcceptUpTo(t, b.hospitalId, items, at, NoFault).0;
    FaultLater(t, b.hospitalId, items, at, fault, at);
    NoFaultNoError(t, b.hospitalId, items, at);
    assert AcceptUpTo(t, b.hospitalId, items, at + 1, fault) == (before, Some(ItemWrite));
    ErrorStops(t, b.hospitalId, items, at + 1, |items|, fault);
    assert Accept(t, b.hospitalId, items, fault) == (before, Some(ItemWrite));
  }

  /**
   * One turn of the loop after an error-free run over the first `i` items:
   * without an error the run grows by one item; with one, the loop is over
   * with that result.
   */
  lemma AcceptTurn(t: Tables, hospitalId: string, items: seq<ItemPayload>, i: nat, fault: Fault,
                   before: Tables, after: Tables, error: Option<CallFailure>)
    requires i < |items|
    requires AcceptUpTo(t, hospitalId, items, i, fault) == (before, None)
    requires (after, error) == ReceiveItem(before, hospitalId, items[i], i, fault)
    ensures error.None? ==> AcceptUpTo(t, hospitalId, items, i + 1, fault) == (after, None)
    ensures error.Some? ==> Accept(t, hospitalId, items, fault) == (after, error)
  {
    if error.Some? {
      ErrorStops(t, hospitalId, items, i + 1, |items|, fault);
    }
  }

  // ---------------------------------------------------------------------
  // The endpoint over mutable tables
  // ---------------------------------------------------------------------

  class ReceiptStore {
    var folios: map<string, FolioRow>
    var items: map<string, ItemRow>
    var stock: map<InvKey, Option<int>>

    function State(): Tables
      reads this
    {
      Tables(folios, items, stock)
    }

    constructor(initial: Tables)
      ensures State() == initial
    {
      folios := initial.folios;
      items := initial.items;
      stock := initial.stock;
    }

    /** One turn of the accept loop. */
    method ReceiveOne(hospitalId: string, item: ItemPayload, at: nat, fault: Fault) returns (error: Option<CallFailure>)
      modifies this
      ensures (State(), error) == ReceiveItem(old(State()), hospitalId, item, at, fault)
    {
      var recibida := Normalize(item.cantidadRecibida);
      if fault == ItemWriteFails(at) {
        return Some(ItemWrite);
      }
      if item.itemId in items {
        items := items[item.itemId := items[item.itemId].(cantidadEntregada := Some(recibida))];
      }
      if fault == StockReadFails(at) {
        return Some(StockRead);
      }
      var k := InvKey(hospitalId, item.insumoId);
      if k in stock {
        if fault == StockWriteFails(at) {
          return Some(StockUpdate);
        }
        stock := stock[k := Some(stock[k].GetOr(0) + recibida)];
      } else if recibida > 0 {
        if fault == StockWriteFails(at) {
          return Some(StockInsert);
        }
        stock := stock[k := Some(recibida)];
      }
      return None;
    }

    /** The accept loop with its `esCompleto` flag. */
    method AcceptItems(hospitalId: string, payload: seq<ItemPayload>, fault: Fault)
      returns (error: Option<CallFailure>, esCompleto: bool)
      modifies this
      ensures (State(), error) == Accept(old(State()), hospitalId, payload, fault)
      ensures error.None? ==> (esCompleto <==> Complete(payload))
    {
      esCompleto := true;
      ghost var t0 := State();
      var i := 0;
      while i < |payload|
        invariant 0 <= i <= |payload|
        invariant AcceptUpTo(t0, hospitalId, payload, i, fault) == (State(), None)
        invariant esCompleto <==> forall j :: 0 <= j < i ==> Matches(payload[j])
      {
        var item := payload[i];
        if !Matches(item) {
          esCompleto := false;
        }
        ghost var before := State();
        error := ReceiveOne(hospitalId, item, i, fault);
        AcceptTurn(t0, hospitalId, payload, i, fault, before, State(), error);
        if error.Some? {
          return;
        }
        i := i + 1;
      }
      error := None;
    }

    /** `POST` */
    method Post(request: Option<Body>, now: string, fault: Fault) returns (response: HttpResult)
      modifies this
      ensures (response, State()) == Respond(old(State()), request, now, fault)
    {
      if request.None? {
        return Err(500, InternalMessage);
      }
      var b := request.value;
      if !ValidParameters(b) {
        return Err(400, InvalidMessage);
      }
      if b.accion == "rechazar" {
        if fault == FolioWriteFails {
          return Err(500, RejectFailedMessage);
        }
        if b.folioId in folios {
          folios := folios[b.folioId := FolioRow(Rechazado, now)];
        }
        if fault != ItemsResetFails {
          items := ResetItems(items, b.folioId);
        }
        return Ok(Rechazado);
      }
      var error, esCompleto := AcceptItems(b.hospitalId, ItemsOf(b).value, fault);
      if error.Some? {
        return Err(500, FailureMessage(error.value));
      }
      var nuevoStatus := if esCompleto then Entregado else EntregadoParcial;
      if fault == FolioWriteFails {
        return Err(500, StatusFailedMessage);
      }
      if b.folioId in folios {
        folios := folios[b.folioId := FolioRow(nuevoStatus, now)];
      }
      return Ok(nuevoStatus);
    }
  }
}
