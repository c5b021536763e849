/**
 * The supervisor's approval list (components/supervisor/supervisor-approval-list.tsx):
 * the status badge of a card, and the detail dialog with its approve and
 * reject actions.
 *
 * The selected folio is held by id. A failed write is the `ApiError` the
 * client returns, whose `message` may be missing. The reject action calls
 * the database function `cancel_folio_and_restore_inventory`, whose body is
 * not part of this model: the action returns the call it makes, and the
 * caller's database is not touched by it here.
 */
module SupervisorApproval {
  import opened Common
  import opened Types
  import opened Store

  /** What `getStatusBadge` shows. */
  datatype Badge = PendienteBadge | AprobadoBadge | RechazadoBadge | Raw(text: string)

  /** `getStatusBadge`: three named badges, and the status text itself for anything else. */
  function StatusBadge(status: string): (b: Badge)
    ensures b == PendienteBadge <==> status == "pendiente"
    ensures b == AprobadoBadge <==> status in {"aprobado_lider", "aprobado_supervisor", "entregado"}
    ensures b == RechazadoBadge <==> status == "rechazado"
    ensures b.Raw? ==> b.text == status
  {
    if status == "pendiente" then PendienteBadge
    else if status in ["aprobado_lider", "aprobado_supervisor", "entregado"] then AprobadoBadge
    else if status == "rechazado" then RechazadoBadge
    else Raw(status)
  }

  /**
   * On the stored statuses: every declared status gets a named badge, the
   * three approved-or-later statuses share one, and `entregado_parcial`,
   * which the list does not know, is shown as its raw text.
   */
  lemma BadgeOfStatus(s: FolioStatus)
    ensures StatusBadge(StatusName(s)).Raw? <==> s == EntregadoParcial
    ensures StatusBadge(StatusName(s)) == AprobadoBadge <==> s in {AprobadoLider, AprobadoSupervisor, Entregado}
    ensures s == EntregadoParcial ==> StatusBadge(StatusName(s)) == Raw("entregado_parcial")
  {
  }

  /** One failed request: the error's `message`, when it has one. */
  datatype ApiError = ApiError(message: Option<string>)

  const ApproveFallback := "Ocurrió un error al aprobar el folio. Intenta de nuevo."
  const RejectFallback := "Ocurrió un error al rechazar el folio. Intenta de nuevo."

  /** `err?.message ?? fallback` */
  function ErrorText(err: ApiError, fallback: string): (r: string)
    ensures err.message.Some? ==> r == err.message.value
    ensures err.message.None? ==> r == fallback
  {
    err.message.GetOr(fallback)
  }

  /**
   * The `folio_requests` table after the approve update: the row with that
   * id, if any, has status `aprobado_supervisor`, whatever it was; every
   * other field and row is unchanged.
   */
  function Approved(folios: map<string, FolioRequest>, id: string): (r: map<string, FolioRequest>)
    ensures r.Keys == folios.Keys
    ensures id in folios ==> r[id] == folios[id].(status := AprobadoSupervisor)
    ensures forall x :: x in folios && x != id ==> r[x] == folios[x]
  {
    if id in folios then folios[id := folios[id].(status := AprobadoSupervisor)] else folios
  }

  /** Approving twice is approving once. */
  lemma ApproveIdempotent(folios: map<string, FolioRequest>, id: string)
    ensures Approved(Approved(folios, id), id) == Approved(folios, id)
  {
  }

  /** The approve update ignores the current status: a rejected or delivered folio becomes approved again. */
  lemma ApproveIgnoresStatus(folios: map<string, FolioRequest>, id: string)
    requires id in folios
    ensures Approved(folios, id)[id].status == AprobadoSupervisor
    ensures folios[id].status in {Rechazado, Entregado} ==> Approved(folios, id)[id].status != folios[id].status
  {
  }

  /** The database function the reject action calls, with its `p_folio_id`. */
  datatype RpcCall = CancelFolioAndRestoreInventory(folioId: string)

  class ApprovalPanel {
    const readOnly: bool
    var selected: Option<string>
    var open: bool
    var loadingAction: bool
    var error: Option<string>

    constructor(readOnly: bool)
      ensures this.readOnly == readOnly
      ensures selected == None && !open && !loadingAction && error == None
    {
      this.readOnly := readOnly;
      selected := None;
      open := false;
      loadingAction := false;
      error := None;
    }

    /** `openDetails`: selects the folio, clears the error and opens the dialog. */
    method OpenDetails(id: string)
      modifies this
      ensures selected == Some(id) && error == None && open
      ensures loadingAction == old(loadingAction)
    {
      selected := Some(id);
      error := None;
      open := true;
    }

    /** `closeDetails`: nothing while an action is running; otherwise closes and clears. */
    method CloseDetails()
      modifies this
      ensures old(loadingAction) ==> selected == old(selected) && open == old(open) && error == old(error)
      ensures !old(loadingAction) ==> selected == None && !open && error == None
      ensures loadingAction == old(loadingAction)
    {
      if loadingAction {
        return;
      }
      open := false;
      selected := None;
      error := None;
    }

    /** The approve and reject buttons are shown only when editable and a folio is selected. */
    predicate ActionsAvailable()
      reads this
    {
      !readOnly && selected.Some?
    }

    /**
     * `handleApprove`: with no selection nothing happens. Otherwise the
     * selected row's status becomes `aprobado_supervisor` and nothing else in
     * the table changes; on success the dialog closes and the list refreshes,
     * on failure the table is as before and the error text is shown.
     */
    method HandleApprove(db: Database, fault: Option<ApiError>) returns (refresh: bool)
      modifies this, db`folios
      ensures old(selected).None? ==>
        !refresh && db.folios == old(db.folios)
        && selected == old(selected) && open == old(open) && error == old(error) && loadingAction == old(loadingAction)
      ensures old(selected).Some? && fault.None? ==>
        refresh && db.folios == Approved(old(db.folios), old(selected).value)
        && selected == None && !open && error == None && !loadingAction
      ensures old(selected).Some? && fault.Some? ==>
        !refresh && db.folios == old(db.folios)
        && selected == old(selected) && open == old(open)
        && error == Some(ErrorText(fault.value, ApproveFallback)) && !loadingAction
    {
      if selected.None? {
        return false;
      }
      loadingAction := true;
      error := None;
      if fault.Some? {
        error := Some(ErrorText(fault.value, ApproveFallback));
        loadingAction := false;
        return false;
      }
      var id := selected.value;
      if id in db.folios {
        db.folios := db.folios[id := db.folios[id].(status := AprobadoSupervisor)];
      }
      open := false;
      selected := None;
      loadingAction := false;
      return true;
    }

    /**
     * `handleReject`: with no selection, or unless the user confirms, nothing
     * happens and nothing is called. Otherwise the database function is
     * called for the selected folio; on success the dialog closes, on failure
     * the error text is shown.
     */
    method HandleReject(confirmed: bool, fault: Option<ApiError>) returns (call: Option<RpcCall>, refresh: bool)
      modifies this
      ensures old(selected).None? || !confirmed ==>
        call.None? && !refresh
        && selected == old(selected) && open == old(open) && error == old(error) && loadingAction == old(loadingAction)
      ensures old(selected).Some? && confirmed ==>
        call == Some(CancelFolioAndRestoreInventory(old(selected).value)) && !loadingAction
      ensures old(selected).Some? && confirmed && fault.None? ==> refresh && selected == None && !open && error == None
      ensures old(selected).Some? && confirmed && fault.Some? ==>
        !refresh && selected == old(selected) && open == old(open) && error == Some(ErrorText(fault.value, RejectFallback))
    {
      if selected.None? {
        return None, false;
      }
      if !confirmed {
        return None, false;
      }
      loadingAction := true;
      error := None;
      call := Some(CancelFolioAndRestoreInventory(selected.value));
      if fault.Some? {
        error := Some(ErrorText(fault.value, RejectFallback));
        loadingAction := false;
        return call, false;
      }
      open := false;
      selected := None;
      loadingAction := false;
      refresh := true;
    }
  }
}
