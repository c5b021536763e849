# Hospital folio management: a Dafny model of the folio lifecycle and the inventory rules

The system is a web application for a network of hospitals. Nursing
assistants (`auxiliar`) request surgical supplies in a *folio*: a header that
names the patient and the procedure, plus product lines. A folio moves through
statuses written by the roles. The team leader (`lider`) approves first, then
the supervisor. The warehouse (`almacen`) delivers, and the receiving hospital
confirms what arrived. Alongside this, the warehouse keeps per-hospital stock
by hand: stock-in, stock-out and low-stock warnings. Managers (`gerente`,
`gerente_almacen`) see counters and statistics over folios and stock, and
decide on restock requests and transfers.

This project models the parts with rules in them:

- the data types of the application;
- manual stock-in and stock-out;
- warehouse delivery of a folio;
- the hospital's receipt endpoint and its receipt card;
- folio creation;
- supervisor approval;
- the classifications, counters and groupings the dashboards compute.

The lines below give each part's Dafny form.

- **Database as state.** The `Store.Database` class holds:
  - `inventory`: a map from (hospital, product) to a row;
  - `folios`: folios by id;
  - `folioItems`, `history`;
  - `restockRequests`, `transferOrders`.

  Each handler is a method of its module. It changes the fields its
  `modifies` clause names, and its `ensures` equates the new state with a
  function of the old one. The properties are proved as lemmas about that
  function.
- **The receipt endpoint's own tables.** `app/api/procesar-folio/route.ts`
  uses the tables `folios`, `folio_items` and `inventario_hospital`. They live
  in `ProcesarFolio.ReceiptStore`. The application uses two table schemas, and
  the model keeps them apart.
- **UI state.** The React state of the dialogs and cards becomes classes:
  - `CreateFolio.FolioDialog`;
  - `FolioEntregaCard.EntregaCard`;
  - `SupervisorApproval.ApprovalPanel`.

  Their methods are the event handlers.
- **Pure views.** The dashboards' pure computations are functions:
  - status filters;
  - the first-five slice of the low-stock list;
  - per-hospital groupings;
  - the acting user.
- **Loops.** The loops the source has are methods with invariants, proved
  against those functions: the `productivityStats` counting, the
  `inventoryByHospital` `reduce`, the card's initial `reduce`, the delivery
  check and write loops, and the endpoint's accept loop.

A JavaScript null or undefined that the code only tests for truthiness is the
empty string, and a nullable number or selection is an `Option`. A JSON
number is a `real`, and a stored quantity is an unbounded `int`; the code
does no fixed-width arithmetic. The warehouse form's `Number(text)` is a
`JsNumber`: NaN, a finite value or an infinity. The `quantity` column holds
integers, so a write of any other number is refused by the database. A database call's failure is a parameter
naming which call fails: `Fault` for the endpoint, `SubmitFault` for folio
creation, and `Option<ApiError>` for approval. The clock is a parameter
(`now`, `stamp`).

Files, one module each:

- **Shared modules.**
  - `common.dfy`: `Option`, `Filter`, `Take` and the counting lemmas.
  - `text.dfy`: JavaScript `trim`, `parseInt` and decimal printing.
  - `types.dfy`: `lib/types.ts`, plus `entregado_parcial`.
  - `store.dfy`: the database.
  - `low_stock.dfy`: the low-stock test the dashboards share.
  - `role_shell.dfy`: the hospital selector's shared pieces. These are the
    single-hospital list that the leader and warehouse dashboards build, the
    first listed id, and the selected hospital's inventory rows.
- **One file per source component:**
  - `inventory_management.dfy`
  - `folio_delivery.dfy`
  - `procesar_folio.dfy`
  - `folio_entrega_card.dfy`
  - `create_folio.dfy`
  - `supervisor_approval.dfy`
  - `gerente_dashboard.dfy`
  - `hospital_stats.dfy`
  - `global_inventory.dfy`
  - `gerente_almacen.dfy`
  - `almacen_dashboard.dfy`
  - `supervisor_dashboard.dfy`
  - `auxiliar_dashboard.dfy`
  - `lider_dashboard.dfy`

## Model

| member | source | states |
|---|---|---|
| Types.RoleVocabulary | lib/types.ts:12-19 | There are exactly seven user roles, all distinct, and every role is among them. |
| Types.StatusVocabulary | lib/types.ts:21 | The declared folio statuses are the five of the type. The stored vocabulary adds `entregado_parcial`, for six distinct statuses. |
| Types.ParseStatusName | lib/types.ts:21 | Every status's name parses back to that status. |
| Types.ParseStatus | lib/types.ts:21 | A name that parses is the name of the status it parses to. |
| Text.Trim | components/auxiliar/create-folio-dialog.tsx:230-238 | The trimmed value neither starts nor ends with JavaScript whitespace. |
| Text.TrimIsInnerSlice | components/auxiliar/create-folio-dialog.tsx:230-238 | The trimmed value is a slice `s[a..b]` of the input, and everything before `a` and from `b` on is JavaScript whitespace. |
| Text.TrimEmptyIffBlank | components/auxiliar/create-folio-dialog.tsx:152 | `!x.trim()` holds exactly when every character of `x` is JavaScript whitespace. |
| Text.TrimIdempotent | components/auxiliar/create-folio-dialog.tsx:230-238 | Trimming a trimmed field changes nothing. |
| Text.NatToString | components/auxiliar/create-folio-dialog.tsx:218 | `String(n)` of a natural number is non-empty, made of decimal digits, and starts with `0` only for 0 itself. |
| Text.ParseIntOfNatToString | components/auxiliar/create-folio-dialog.tsx:158 | `parseInt` reads the decimal form of every natural number back as that number. |
| Text.NatToStringInjective | components/auxiliar/create-folio-dialog.tsx:218 | Distinct time stamps print as distinct decimal strings. |
| LowStock.LowStockOf | components/almacen/almacen-dashboard.tsx:53 | Keeps exactly the rows whose quantity is at most the product's `min_stock` (0 without a product). |
| InventoryManagement.GetInventoryByProductIsFirst | components/almacen/inventory-management.tsx:109-110 | Finds the first row of the product, or none exactly when no row has that product. `getInventoryForProduct` of components/almacen/folio-delivery-list.tsx:38-40 is the same search. |
| InventoryManagement.Plus | components/almacen/inventory-management.tsx:152 | `existing.quantity + qty` is an integer exactly when `qty` is. |
| InventoryManagement.Minus | components/almacen/inventory-management.tsx:227-229 | `existing.quantity - qty` is an integer exactly when `qty` is, and it is 0 exactly when `qty` equals the stock. |
| InventoryManagement.StockIn | components/almacen/inventory-management.tsx:115-182 | Each bad input fails with its own message and writes nothing: no hospital, then no product, then no positive quantity. A positive quantity that is not an integer (a fraction, or infinity) is refused by the database, with nothing written; an integer one exactly succeeds. Then the (hospital, product) row gains `qty` and takes the new expiry date, or is created with `qty`; there is one key per pair and no other row changes. Non-negative stock stays non-negative. |
| InventoryManagement.StockOut | components/almacen/inventory-management.tsx:187-241 | The same input checks, then a missing row and an overdraw (infinity included) are refused with nothing written. A fraction within the stock leaves a difference the database refuses, with nothing written. An integer withdrawal of the whole quantity deletes the row; less leaves the positive difference, and no other row changes. Done exactly when every check passes and the quantity is an integer; non-negative stock stays non-negative. |
| InventoryManagement.StockInThenOut | components/almacen/inventory-management.tsx:148-241 | Stock-in of `q` then stock-out of `q`, on non-negative rows: a positive row gets its quantity back (with the new expiry), a row at 0 is deleted, and a missing row stays missing. |
| InventoryManagement.HandleAddInventory | components/almacen/inventory-management.tsx:115-182 | The `inventory` table becomes `StockIn` of the old table; `Valid()` is kept. |
| InventoryManagement.HandleRemoveInventory | components/almacen/inventory-management.tsx:187-241 | The `inventory` table becomes `StockOut` of the old table; `Valid()` is kept. |
| InventoryManagement.BelowMinIsLowStock | components/almacen/inventory-management.tsx:317-326 | With the product's minimum as `min_quantity`, the strict below-minimum flag implies low stock. A row exactly at the minimum is low but not flagged. |
| FolioDelivery.FirstLacking | components/almacen/folio-delivery-list.tsx:42-47 | No line is lacking exactly when `canDeliverFolio` holds: every line has a first row with quantity at least the approved quantity (null as 0). Otherwise the result is the first line without one. |
| FolioDelivery.CheckStock | components/almacen/folio-delivery-list.tsx:57-63 | The check loop returns the first uncovered line, as `FirstLacking`. |
| FolioDelivery.Deducted | components/almacen/folio-delivery-list.tsx:66-79 | The write loop keeps the set of rows. When every line is covered, non-negative stock stays non-negative. |
| FolioDelivery.TargetOf | components/almacen/folio-delivery-list.tsx:66-79 | The row a line writes is always a row of that line's product. |
| FolioDelivery.DeductedAt | components/almacen/folio-delivery-list.tsx:66-79 | Each row ends at snapshot quantity minus approved quantity, for the last line that writes it. A row no line writes is unchanged. |
| FolioDelivery.WriteLines | components/almacen/folio-delivery-list.tsx:66-79 | The inventory after the loop is `Deducted` of the inventory before it. |
| FolioDelivery.DeliveredStockIsProjected | components/almacen/folio-delivery-list.tsx:228 | With distinct products, each line's row ends at the "stock después" the confirmation showed. |
| FolioDelivery.DuplicateLinesDeductOnce | components/almacen/folio-delivery-list.tsx:66-79 | Two lines of one product (2 and 3 out of 10) leave 7: each write starts from the snapshot, and the first deduction is lost. |
| FolioDelivery.Deliver | components/almacen/folio-delivery-list.tsx:49-108 | No selection: nothing. An uncovered line: refused with that line's message, nothing written. Delivered exactly when every line is covered; then the folio becomes `entregado` at `now`, one history row `aprobado_supervisor` → `entregado` is appended, and no other folio changes. |
| FolioDelivery.DeliverWritesDeducted | components/almacen/folio-delivery-list.tsx:66-79 | A delivery's inventory is exactly the write loop's result. |
| FolioDelivery.ButtonDeliveryRecordsTruth | components/almacen/folio-delivery-list.tsx:181-183 | Through a shown and enabled button, the folio is delivered, and the history's previous status is its true one. |
| FolioDelivery.HandleDeliver | components/almacen/folio-delivery-list.tsx:49-108 | Inventory, folios and history become `Deliver` of the old tables; `Valid()` is kept. |
| ProcesarFolio.NormalizeIsFloor | app/api/procesar-folio/route.ts:69 | `max(0, floor(x or 0))`: 0 for a missing value or one below 1; otherwise the integer part. |
| ProcesarFolio.SetStatus | app/api/procesar-folio/route.ts:155-161 | Only the folio with that id changes, to the new status and time. |
| ProcesarFolio.ResetItems | app/api/procesar-folio/route.ts:50-53 | Every item of the folio gets delivered quantity 0; other items are unchanged. |
| ProcesarFolio.AcceptMonotone | app/api/procesar-folio/route.ts:68-150 | Whatever call fails, the accept loop writes no folio, deletes no stock row and lowers no stock value. |
| ProcesarFolio.AcceptKeepsFolios | app/api/procesar-folio/route.ts:68-150 | Over any number of items and whatever call fails, `folios` is unchanged. |
| ProcesarFolio.AcceptKeepsRow | app/api/procesar-folio/route.ts:94-149 | Over any number of items and whatever call fails, an existing inventory row is still there, at no lower stock. |
| ProcesarFolio.ReceiveItemKeepsRow | app/api/procesar-folio/route.ts:94-149 | One turn keeps every existing inventory row, at no lower stock: it only adds a non-negative quantity or inserts. |
| ProcesarFolio.Respond | app/api/procesar-folio/route.ts:13-182 | An unreadable body gives 500 and missing parameters give 400, both with nothing written. A failed reject writes nothing, and no failure writes a folio. A success always had valid parameters, and it is `rechazado` exactly on `rechazar`. |
| ProcesarFolio.RejectPath | app/api/procesar-folio/route.ts:32-63 | Reject gives Ok `rechazado`. The folio becomes `rechazado`, its items get delivered quantity 0, the stock is untouched and every other row stays as it was. |
| ProcesarFolio.AcceptStatus | app/api/procesar-folio/route.ts:66-174 | Accept gives `entregado` exactly when every normalised quantity equals the requested one, otherwise `entregado_parcial`, and writes that status. |
| ProcesarFolio.EmptyAcceptIsComplete | app/api/procesar-folio/route.ts:20 | A missing or empty item list is a complete delivery. |
| ProcesarFolio.NoFaultNoError | app/api/procesar-folio/route.ts:68-150 | With no failing call, a run over any number of items ends without an error. |
| ProcesarFolio.AcceptStock | app/api/procesar-folio/route.ts:94-149 | Without faults, each of the hospital's rows ends at old stock (null as 0) plus the quantity received. A row exists afterwards exactly when it existed or something arrived. Other hospitals are untouched. |
| ProcesarFolio.AcceptRecordsItems | app/api/procesar-folio/route.ts:75-79 | Without faults, `folio_items` keeps its ids. A row some item names ends with the normalised quantity of the last item naming it; every other row is unchanged. |
| ProcesarFolio.AcceptItemOf | app/api/procesar-folio/route.ts:75-79 | The same for one row id. |
| ProcesarFolio.ReceiveItemRecords | app/api/procesar-folio/route.ts:75-79 | One turn without faults writes the item's normalised quantity to the row it names and to no other, and adds no row. |
| ProcesarFolio.AcceptStockOf | app/api/procesar-folio/route.ts:94-149 | Without faults, the hospital's row of one product ends at its old stock (null as 0) plus what arrived of it. The row exists afterwards exactly when it existed or something arrived. |
| ProcesarFolio.AcceptOtherRow | app/api/procesar-folio/route.ts:94-98 | Without faults, a row of another hospital neither appears, disappears nor changes. |
| ProcesarFolio.ReceiveItemStockOf | app/api/procesar-folio/route.ts:94-149 | One turn without faults ends without an error. It adds the normalised quantity to the row of the item's product, creating the row only when the quantity is positive. |
| ProcesarFolio.ErrorStops | app/api/procesar-folio/route.ts:81-148 | Once the first `n` items end in an error, every longer run gives the same tables and error: nothing more is written. |
| ProcesarFolio.FaultLater | app/api/procesar-folio/route.ts:68-150 | A call that fails at position `at` has no effect on the run over the items before `at`. |
| ProcesarFolio.AcceptTurn | app/api/procesar-folio/route.ts:68-150 | After an error-free prefix, one more turn either extends the run by one item or, on an error, is the result of the whole loop. |
| ProcesarFolio.ItemFailureKeepsEarlierWrites | app/api/procesar-folio/route.ts:76-90 | A failing item write at position `at` gives 500 and leaves the folio's status alone. The items before `at` are already recorded and stocked. |
| ProcesarFolio.ReceiptStore.ReceiveOne | app/api/procesar-folio/route.ts:68-149 | One turn of the loop on the tables is `ReceiveItem`. |
| ProcesarFolio.ReceiptStore.AcceptItems | app/api/procesar-folio/route.ts:66-150 | The loop on the tables is `Accept`. Without an error, `esCompleto` is exactly `Complete(items)`. |
| ProcesarFolio.ReceiptStore.Post | app/api/procesar-folio/route.ts:13-182 | Response and tables are `Respond` of the old tables. |
| FolioEntregaCard.InitialRecibidas | components/almacen/folio-entrega-card.tsx:39-46 | The initial map has exactly one key per line id. |
| FolioEntregaCard.InitialIsRequested | components/almacen/folio-entrega-card.tsx:39-46 | With distinct ids, every line starts at its requested quantity. |
| FolioEntregaCard.EntregaCard.constructor | components/almacen/folio-entrega-card.tsx:39-46 | The `reduce` loop fills in `InitialRecibidas`. |
| FolioEntregaCard.EntregaCard.HandleCantidadChange | components/almacen/folio-entrega-card.tsx:52-56 | A NaN or negative entry changes nothing; otherwise only that line's entry changes. |
| FolioEntregaCard.PayloadItems | components/almacen/folio-entrega-card.tsx:64-75 | One payload entry per line, in order, carrying the line's id, product and request. The received value is 0 on reject, otherwise the entry (0 when absent). |
| FolioEntregaCard.RejectSendsZero | components/almacen/folio-entrega-card.tsx:68-74 | On `rechazar` every line sends 0, which the endpoint normalises to 0. |
| FolioEntregaCard.CompleteCardIsCompleteDelivery | components/almacen/folio-entrega-card.tsx:108-112 | With whole-number entries, a complete card sends a payload the endpoint finds complete. |
| FolioEntregaCard.ZeroLineCompleteOnlyForEndpoint | components/almacen/folio-entrega-card.tsx:108-112 | The converse fails: a line requested and received as 0 is complete for the endpoint only. |
| FolioEntregaCard.FractionCompleteOnlyOnCard | components/almacen/folio-entrega-card.tsx:108-112 | A fractional entry equal to its request is complete on the card, but a partial delivery for the endpoint. |
| FolioEntregaCard.CompleteCardIsDelivered | components/almacen/folio-entrega-card.tsx:64-95 | End to end, a complete accepted card is answered `entregado`, and the card says "Folio entregado y stock actualizado.". |
| FolioEntregaCard.Notice | components/almacen/folio-entrega-card.tsx:85-102 | The card shows an error exactly when the response is an error. |
| CreateFolio.FirstRefusedIsFirst | components/auxiliar/create-folio-dialog.tsx:140-213 | The chain of checks stops at the first failure: no refusal means every condition holds. A refusal's own condition fails, and every condition checked before it holds. |
| CreateFolio.NoRefusalIffAllHold | components/auxiliar/create-folio-dialog.tsx:140-213 | The chain refuses nothing exactly when every one of the twelve conditions holds. |
| CreateFolio.AcceptableHolds | components/auxiliar/create-folio-dialog.tsx:140-213 | An acceptable form meets each condition of the chain. |
| CreateFolio.HoldsAcceptable | components/auxiliar/create-folio-dialog.tsx:140-213 | A form that meets every condition of the chain is acceptable. |
| CreateFolio.AllHoldIffAcceptable | components/auxiliar/create-folio-dialog.tsx:140-213 | The twelve conditions together are exactly `Acceptable`: a user id and hospital; a non-blank name, NSS and surgery type; an age that parses into [0, 120]; gender, anaesthesia, surgeon, anaesthesiologist and time set; a valid line. |
| CreateFolio.NoRefusalIffAcceptable | components/auxiliar/create-folio-dialog.tsx:140-213 | The ordered chain lets a submission through exactly when it is acceptable. |
| CreateFolio.ValidationError | components/auxiliar/create-folio-dialog.tsx:140-213 | No refusal exactly when the form is acceptable. |
| CreateFolio.RefusalIsFirstFailure | components/auxiliar/create-folio-dialog.tsx:140-213 | A refused form is refused for its first failing check: that condition fails, and every earlier one holds. |
| CreateFolio.ValidItems | components/auxiliar/create-folio-dialog.tsx:208 | Keeps exactly the lines with a product and a positive quantity. |
| CreateFolio.BlankFormRefused | components/auxiliar/create-folio-dialog.tsx:119-121 | The blank line is never valid, so a form with only that line is refused. |
| CreateFolio.FolioNumberInjective | components/auxiliar/create-folio-dialog.tsx:218 | Equal folio numbers come from the same timestamp and the same 8-character hospital prefix ("GEN" without one). |
| CreateFolio.BuildErrorMessage | components/auxiliar/create-folio-dialog.tsx:123-132 | A falsy value, the empty string included, gives "Error desconocido". Anything else gives the text it carries (the string, the `message`, the JSON), so the message is empty only for a truthy value carrying no text. |
| CreateFolio.InsertFailureMessage | components/auxiliar/create-folio-dialog.tsx:279-282 | A failed insert's message is "Error al crear el folio: " followed by `buildErrorMessage` of what was thrown; it is just the prefix only when a truthy value carrying no text was thrown. |
| CreateFolio.RowOf | components/auxiliar/create-folio-dialog.tsx:247-251 | A valid line's row has its product, the entered positive quantity as `quantity_requested`, and nothing approved. |
| CreateFolio.ItemRows | components/auxiliar/create-folio-dialog.tsx:246-252 | One row per valid line, in order. |
| CreateFolio.Submit | components/auxiliar/create-folio-dialog.tsx:134-286 | A refused form reports its refusal and writes nothing. There is no error exactly when the form is acceptable and no insert fails. A failed header insert writes nothing. |
| CreateFolio.Inserts | components/auxiliar/create-folio-dialog.tsx:220-282 | An acceptable submission ends without an error exactly when no insert fails. |
| CreateFolio.SubmitSucceeds | components/auxiliar/create-folio-dialog.tsx:134-278 | An acceptable form with no failing insert writes `Created`. |
| CreateFolio.CreatedRecords | components/auxiliar/create-folio-dialog.tsx:221-261 | The header is `pendiente`, for the user and their hospital, with the folio number of `stamp`, a trimmed non-empty name and an age in [0, 120]. After it come one row per valid line with a product and a positive quantity, then "Folio creado". |
| CreateFolio.ItemsFailureLeavesHeader | components/auxiliar/create-folio-dialog.tsx:244-282 | A failed item insert reports what was thrown. It keeps the `pendiente` header, with no items and no history. |
| CreateFolio.InsertFolio | components/auxiliar/create-folio-dialog.tsx:220-282 | The inserts on the tables are `Inserts`: the error and the three tables afterwards. |
| CreateFolio.SubmitFolio | components/auxiliar/create-folio-dialog.tsx:134-286 | The checks and inserts on the tables are `Submit`. |
| CreateFolio.AfterSubmit | components/auxiliar/create-folio-dialog.tsx:134-286 | Error and tables are `Submit`'s. The form and lines reset to the empty form and one blank line on success, and are kept on failure. |
| CreateFolio.FolioDialog.constructor | components/auxiliar/create-folio-dialog.tsx:44-56 | The dialog starts with the empty form and one blank line. |
| CreateFolio.FolioDialog.HandleAddItem | components/auxiliar/create-folio-dialog.tsx:119-121 | A blank line (no product, quantity 1) is appended. |
| CreateFolio.FolioDialog.HandleRemoveItem | components/auxiliar/create-folio-dialog.tsx:113-117 | Only the line at the index is removed, the rest keep their order; an index past the end changes nothing. |
| CreateFolio.FolioDialog.SetProduct | components/auxiliar/create-folio-dialog.tsx:107-111 | Only that line's product changes. |
| CreateFolio.FolioDialog.SetQuantity | components/auxiliar/create-folio-dialog.tsx:107-111 | Only that line's quantity changes. |
| CreateFolio.FolioDialog.HandleSubmit | components/auxiliar/create-folio-dialog.tsx:134-286 | The dialog's fields and the tables become `AfterSubmit` of the old ones. |
| SupervisorApproval.StatusBadge | components/supervisor/supervisor-approval-list.tsx:132-148 | `pendiente` gives the Pendiente badge. `aprobado_lider`, `aprobado_supervisor` and `entregado` give Aprobado; `rechazado` gives Rechazado. Anything else is shown raw (each an iff). |
| SupervisorApproval.BadgeOfStatus | components/supervisor/supervisor-approval-list.tsx:132-148 | Every declared status has a named badge, and only `entregado_parcial` is shown raw. |
| SupervisorApproval.Approved | components/supervisor/supervisor-approval-list.tsx:71-76 | The row with that id becomes `aprobado_supervisor` whatever it was. No other field or row changes. |
| SupervisorApproval.ApproveIdempotent | components/supervisor/supervisor-approval-list.tsx:71-76 | Approving twice is approving once. |
| SupervisorApproval.ApproveIgnoresStatus | components/supervisor/supervisor-approval-list.tsx:71-76 | A rejected or delivered folio is turned back into `aprobado_supervisor`. |
| SupervisorApproval.ApprovalPanel.constructor | components/supervisor/supervisor-approval-list.tsx:47-50 | Nothing is selected, open, loading or in error. |
| SupervisorApproval.ApprovalPanel.OpenDetails | components/supervisor/supervisor-approval-list.tsx:52-56 | Selects the folio, clears the error and opens the dialog. |
| SupervisorApproval.ApprovalPanel.CloseDetails | components/supervisor/supervisor-approval-list.tsx:58-63 | While an action runs, nothing changes. Otherwise the dialog closes and the selection and error are cleared. |
| SupervisorApproval.ApprovalPanel.HandleApprove | components/supervisor/supervisor-approval-list.tsx:65-89 | No selection: nothing. Success: the table becomes `Approved`, the dialog closes and the list refreshes. Failure: the table is untouched and the error shows the failure's message, or the fallback text when it has none. |
| SupervisorApproval.ApprovalPanel.HandleReject | components/supervisor/supervisor-approval-list.tsx:91-122 | No selection or no confirmation: nothing is called. Otherwise the database function is called for the selected folio; success closes the dialog, failure shows the error. |
| GerenteDashboard.FilteredFolios | components/gerente/gerente-dashboard.tsx:108-111 | Empty without a selection; otherwise exactly the folios of the selected hospital. |
| RoleShell.HospitalRows | components/gerente/gerente-dashboard.tsx:123-126 | Empty without a selection; otherwise exactly the rows of the selected hospital, no more rows than the inventory. The supervisor and auxiliary `fetchInventory` queries give the same rows. |
| GerenteDashboard.StatusGroupsDisjoint | components/gerente/gerente-dashboard.tsx:114-120 | The pending, approved and rejected counters never share a folio. |
| GerenteDashboard.StatusGroupsCount | components/gerente/gerente-dashboard.tsx:114-120 | The three counters plus the partially delivered folios count every folio exactly once. |
| GerenteDashboard.StatusGroupsCoverIff | components/gerente/gerente-dashboard.tsx:114-120 | The counters add up to the total exactly when no folio is `entregado_parcial`. |
| GerenteDashboard.ByStatusSumsToTotal | components/gerente/gerente-dashboard.tsx:131-135 | Per-status counts that are correct add up to the folio count. |
| GerenteDashboard.CountByStatus | components/gerente/gerente-dashboard.tsx:131-135 | The `forEach` yields a key exactly for each status present, holding that status's folio count. |
| GerenteDashboard.UsageCounts | components/gerente/gerente-dashboard.tsx:136-146 | One entry per product in the lines, with distinct keys. The count is the sum of that product's requested quantities (null as 0). |
| GerenteDashboard.UsageOfSnoc | components/gerente/gerente-dashboard.tsx:138-145 | One more line updates the usage of the lines before it. |
| GerenteDashboard.AddLines | components/gerente/gerente-dashboard.tsx:138-145 | The inner loop extends the usage by one folio's lines. |
| GerenteDashboard.CountUsage | components/gerente/gerente-dashboard.tsx:136-146 | The nested loop yields the usage of every line of the folios. |
| GerenteDashboard.SortByCount | components/gerente/gerente-dashboard.tsx:148 | A permutation of the usage, by non-increasing count. |
| GerenteDashboard.InsertByCount | components/gerente/gerente-dashboard.tsx:148 | Inserting adds exactly the one entry. |
| GerenteDashboard.InsertKeepsSorted | components/gerente/gerente-dashboard.tsx:148 | Inserting into a list sorted by non-increasing count keeps it sorted. |
| GerenteDashboard.TopProductsAreTop | components/gerente/gerente-dashboard.tsx:147-149 | At most five entries (min(5, n)) drawn from the usage, largest count first. No entry left out counts more than one kept. |
| GerenteDashboard.ProductivityStats | components/gerente/gerente-dashboard.tsx:130-151 | `total` is the folio count, `byStatus` is correct and sums to `total`, and `top` is the top five of the usage. |
| GerenteDashboard.LowStockGlobal | components/gerente/gerente-dashboard.tsx:155-159 | Exactly the rows with quantity at most `min_stock` (0 without a product). |
| GerenteDashboard.ActingUser | components/gerente/gerente-dashboard.tsx:164-166 | With a selection only `hospital_id` changes, to the selected one; without one the user is unchanged. |
| HospitalStats.FoliosOf | components/gerente/hospital-stats.tsx:24 | Exactly the folios of the hospital. |
| HospitalStats.InventoryOf | components/gerente/hospital-stats.tsx:25 | Exactly the rows of the hospital. |
| HospitalStats.StagesWithinTotal | components/gerente/hospital-stats.tsx:27-33 | In process + delivered + rejected is at most the hospital's total, and low stock is at most its rows. |
| HospitalStats.PartialFolioUncounted | components/gerente/hospital-stats.tsx:27-32 | A partially delivered folio is in no stage, so the stages fall strictly short of the total. |
| HospitalStats.Cards | components/gerente/hospital-stats.tsx:23-33 | One card per hospital, in order. |
| GlobalInventory.GroupsAreFilters | components/gerente/global-inventory-view.tsx:25-35 | One group per hospital present, with distinct keys. Each group is that hospital's rows in their original order, and never empty. |
| GlobalInventory.EachRowInOneGroup | components/gerente/global-inventory-view.tsx:25-35 | Every row is in exactly one group, the one of its hospital. |
| GlobalInventory.GroupSizesSum | components/gerente/global-inventory-view.tsx:25-35 | The group sizes add up to the number of rows. |
| GlobalInventory.GroupByHospital | components/gerente/global-inventory-view.tsx:25-35 | The `reduce` loop yields `GroupsOf` the inventory. |
| GlobalInventory.GroupName | components/gerente/global-inventory-view.tsx:40 | A section heading is never blank. It is the first row's hospital name when that is present, and otherwise "Hospital Desconocido"; any other heading is the name of a row's hospital. |
| GlobalInventory.LowStockCount | components/gerente/global-inventory-view.tsx:41-47 | The number of the group's low-stock rows, at most its size. The badge shows (`lowStockCount > 0`) exactly when some row of the group is low. |
| GlobalInventory.ViewShowsEveryRow | components/gerente/global-inventory-view.tsx:13-22 | The empty state shows exactly for an empty inventory. Otherwise there are sections, none empty, holding every row. |
| GerenteAlmacen.FilteredInventory | components/gerente-almacen/page.tsx:81-84 | Every row without a selection; otherwise exactly the selected hospital's rows. |
| GerenteAlmacen.LowStockItems | components/gerente-almacen/page.tsx:87-91 | Exactly the filtered rows that are low. |
| GerenteAlmacen.PendingRestockCount | components/gerente-almacen/page.tsx:94-96 | At most the number of requests; equal exactly when every request is null or `pendiente`. |
| GerenteAlmacen.OpenPurchaseOrderCount | components/gerente-almacen/page.tsx:101-105 | At most the number of orders; equal exactly when every order is open. |
| GerenteAlmacen.PendingTransferCount | components/gerente-almacen/page.tsx:108-112 | At most the number of transfers; equal exactly when every transfer is null, `pendiente` or `en_transito`. |
| GerenteAlmacen.PurchaseOrderOpenIff | components/gerente-almacen/page.tsx:101-105 | An order is open exactly when it is neither `completada` nor `cancelada`. |
| GerenteAlmacen.ShownStatus | components/gerente-almacen/page.tsx:281 | The status, or `pendiente` when it has none; never empty. |
| GerenteAlmacen.RestockRowShowsOne | components/gerente-almacen/page.tsx:287-309 | A row shows its buttons or its status text, not both. It shows buttons exactly when pending, that is, when its shown status is `pendiente`. |
| GerenteAlmacen.TransferRowShowsOne | components/gerente-almacen/page.tsx:387-397 | A row shows its button or its status text, not both. It shows the button exactly when the transfer is pending. |
| GerenteAlmacen.WithStatus | components/gerente-almacen/page.tsx:115-139 | The same rows and ids; the rows with the id get the status and the others are unchanged. |
| GerenteAlmacen.WithStatusIdempotent | components/gerente-almacen/page.tsx:115-139 | Writing a status twice is writing it once. |
| GerenteAlmacen.ClosingCount | components/gerente-almacen/page.tsx:94-139 | Writing a status that a counter excludes lowers that counter by the number of counted rows with that id. |
| GerenteAlmacen.RestockDecisionCount | components/gerente-almacen/page.tsx:115-131 | Approving or rejecting takes the request out of the pending count and removes its buttons. |
| GerenteAlmacen.TransferCompletionCount | components/gerente-almacen/page.tsx:136-139 | Completing takes the transfer out of the pending count and removes its button. |
| GerenteAlmacen.HandleApproveRestock | components/gerente-almacen/page.tsx:115-122 | The request becomes `aprobado`, then the page refreshes. |
| GerenteAlmacen.HandleRejectRestock | components/gerente-almacen/page.tsx:125-131 | The request becomes `rechazado`, then the page refreshes. |
| GerenteAlmacen.HandleCompleteTransfer | components/gerente-almacen/page.tsx:136-139 | Only the transfer's status changes, to `completada`; the inventory stays as it was. |
| AlmacenDashboard.PendingDelivery | components/almacen/almacen-dashboard.tsx:49 | Exactly the `aprobado_supervisor` folios. |
| AlmacenDashboard.Delivered | components/almacen/almacen-dashboard.tsx:50 | Exactly the `entregado` folios. |
| AlmacenDashboard.DeliveryCountersDisjoint | components/almacen/almacen-dashboard.tsx:49-50 | The two lists never share a folio, and together hold at most every folio. |
| AlmacenDashboard.LowStockList | components/almacen/almacen-dashboard.tsx:60 | The first min(5, n) low-stock rows, in order. |
| AlmacenDashboard.MoreLine | components/almacen/almacen-dashboard.tsx:139-141 | Shown exactly when more than five rows are low, with the positive number left out. |
| AlmacenDashboard.ListAndMoreCoverLowStock | components/almacen/almacen-dashboard.tsx:60-141 | The listed rows plus the "más" number are all the low rows, and every listed row is low. |
| AlmacenDashboard.HospitalOfWarehouse | components/almacen/almacen-dashboard.tsx:56-76 | The user's own hospital is the only entry and is selected when both the hospital and its id are present. Otherwise there is no entry and no selection. |
| RoleShell.OwnHospitalList | components/lider/lider-dashboard.tsx:60-68 | A single entry (the user's `hospital_id` and hospital name) exactly when both are present; otherwise none. |
| RoleShell.FirstId | components/almacen/almacen-dashboard.tsx:76 | The first listed id, or null exactly when the list is empty. |
| RoleShell.OwnHospitalSelected | components/almacen/almacen-dashboard.tsx:56-76 | The selection is the user's hospital whenever the user has one. |
| SupervisorDashboard.SelectedHospital | components/supervisor/supervisor-dashboard.tsx:48 | Some exactly when a listed hospital has the selected id, and then it is such a hospital. |
| SupervisorDashboard.ActingUser | components/supervisor/supervisor-dashboard.tsx:51-55 | With a selected hospital, the user gets its id and record; otherwise neither. No other field changes. |
| SupervisorDashboard.FetchedFolios | components/supervisor/supervisor-dashboard.tsx:63-96 | Empty without a hospital. Otherwise exactly that hospital's folios with one of the five declared statuses. |
| SupervisorDashboard.GroupsDisjoint | components/supervisor/supervisor-dashboard.tsx:134-136 | The three groups are disjoint and together hold at most every folio. |
| SupervisorDashboard.FetchedGroupsCover | components/supervisor/supervisor-dashboard.tsx:85-136 | On the fetched folios the group sizes add up to the folio count. |
| SupervisorDashboard.HistoryTotal | components/supervisor/supervisor-dashboard.tsx:585 | Approved plus rejected, at most the folio count. |
| SupervisorDashboard.HistoryIsNotPending | components/supervisor/supervisor-dashboard.tsx:585 | On the fetched folios, the history total is every folio that is not pending. |
| AuxiliarDashboard.DisplayHospitals | components/auxiliar/auxiliar-dashboard.tsx:32-43 | The given list if it is non-empty, else the user's hospital, else empty (empty iff both are missing). |
| AuxiliarDashboard.InitialSelection | components/auxiliar/auxiliar-dashboard.tsx:46-51 | The first truthy id among `hospital_id`, the joined hospital's id and the first displayed hospital's id. Null exactly when all three are falsy. |
| AuxiliarDashboard.InitialSelectionOfOwnHospital | components/auxiliar/auxiliar-dashboard.tsx:32-51 | A user with a joined hospital always starts on a hospital. |
| AuxiliarDashboard.FetchedFolios | components/auxiliar/auxiliar-dashboard.tsx:107-112 | Exactly the user's own folios, restricted to the selected hospital when there is one. |
| AuxiliarDashboard.FetchedGroupsPartition | components/auxiliar/auxiliar-dashboard.tsx:179-183 | The three tabs split the user's folios: they are disjoint, their sizes add up, and they hold nobody else's folio. |
| LiderDashboard.GroupsOf | components/lider/lider-dashboard.tsx:54-58 | Pending is `pendiente` and rejected is `rechazado`. Approved is `aprobado_lider`, `aprobado_supervisor`, `entregado` or `entregado_parcial`. |
| LiderDashboard.GroupsPartition | components/lider/lider-dashboard.tsx:54-58 | The groups are pairwise disjoint, and their sizes add up to the folio count. |

## Left out

- Supabase I/O: query building, joins, `.single()`/`.maybeSingle()`, ordering and error codes. Each call is a read or write of in-memory tables.
  - Failed calls are modelled for the receipt endpoint, the folio-creation inserts and supervisor approval.
  - Elsewhere a failed query or write is not modelled, even where the code inspects it: the dashboards' fetches, the delivery writes, the warehouse manager's status writes, and the stock-in and stock-out reads and writes (components/almacen/inventory-management.tsx:143-145, 157, 166, 214, 234, 240), whose `err?.message` the dialog shows (lines 176-178, 249-251). The one database refusal modelled there is that of a quantity that is not an integer.
- The unchecked history insert: the folio-creation history insert's result is not inspected (components/auxiliar/create-folio-dialog.tsx:256-261), and its failure is not modelled.
- Concurrency: the read-then-write races of simultaneous deliveries and stock adjustments. The model runs one handler at a time.
- Table schemas: the two schemas (`folio_requests`/`inventory` and `folios`/`inventario_hospital`) are not reconciled. The receipt endpoint has its own tables.
- The reject RPC: the body of the database function `cancel_folio_and_restore_inventory` is not visible, so the reject action only returns the call it makes.
- The delivery rate: `deliveryRate` is a floating-point percentage formatted with `toFixed`.
- Time: `Date.now()` and `new Date().toISOString()` are parameters. Date and locale formatting are not modelled.
- Auth, session, role routing, layout, tabs: badge styles and `confirm()` are not modelled (confirmation is a boolean parameter).
- Stub and display-only components, and classifiers that repeat a predicate modelled here. These cover the supply-chain lists, `inventory-list.tsx`, `folios-list.tsx`, `global-folios-list.tsx` and `gerente-almacen-dashboard.tsx`.
- Receipt endpoint bodies: a non-object element of an endpoint's `items` (it would throw inside the loop) is not modelled. Every element is an `ItemPayload`.
- The receipt card's endpoint path: the card posts to `/api/almacen/procesar-folio` while the endpoint file is `app/api/procesar-folio/route.ts`. The model connects the card's payload to the endpoint directly.
- The auxiliary's acting user is not modelled: `userWithSelectedHospital` (components/auxiliar/auxiliar-dashboard.tsx:69-79) is a chain of `??` fallbacks used only to pass props to the form. The supervisor's version is modelled.
- InventoryManagement.StockIn, InventoryManagement.StockOut: a finite `Number(text)` is an exact real, so double rounding (of decimal fractions, and of integers above 2^53) is not modelled. The text of the database's refusal message is not modelled either (`WriteRefused`).
- SupervisorDashboard.SelectedHospital: states that the result is a listed hospital with the selected id, not that it is the first one, as `find` returns.
- GerenteDashboard.SortByCount: states a permutation sorted by count, not stability. JavaScript's sort is stable, and so is the insertion sort of the model.

## Notes on the code

Modelling the code as written surfaced these behaviours. Each is stated by a member named above.

- **Lifecycle checks.** The code has no status-transition check, delivers all-or-nothing at the warehouse, and moves no stock when a transfer completes:
  - approval writes `aprobado_supervisor` from any status (`ApproveIgnoresStatus`);
  - the delivery handler does not check the folio's status, and records `aprobado_supervisor` as the previous status whatever it was (`Deliver`, `ButtonDeliveryRecordsTruth`);
  - warehouse delivery is all-or-nothing, and partial delivery exists only at the receipt endpoint;
  - completing a transfer changes only its status (`HandleCompleteTransfer`).
- **Duplicate product lines.** Two lines of the same product in one folio deduct only the last line's quantity, because each write starts from the screen's snapshot (`DuplicateLinesDeductOnce`).
- **Card and endpoint disagree.** The card's "complete" indicator and the endpoint's completeness test differ on zero lines and on fractional entries (`ZeroLineCompleteOnlyForEndpoint`, `FractionCompleteOnlyOnCard`).
- **Orphan header.** A failed item insert leaves a `pendiente` header with no items (`ItemsFailureLeavesHeader`).
- **`entregado_parcial` is undeclared.** `lib/types.ts:21` does not declare this status, which the endpoint writes. As a consequence:
  - the supervisor badge shows it raw (`BadgeOfStatus`);
  - the manager's counters and the hospital cards miss it (`StatusGroupsCoverIff`, `PartialFolioUncounted`);
  - the supervisor's folio fetch excludes it (`FetchedFolios`).
- **Unchecked endpoint inputs.** The receipt endpoint does not check that an item belongs to the folio. It treats any non-empty `accion` other than `rechazar` as acceptance.
- **Subsumed clause.** In the open-purchase-order test the null clause is subsumed by the second clause (`PurchaseOrderOpenIff`).
