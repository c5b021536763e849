/**
 * What the dashboards share around the hospital selector: the list the
 * single-hospital dashboards (components/lider/lider-dashboard.tsx,
 * components/almacen/almacen-dashboard.tsx) hand to the role shell, the
 * initial selection (the first listed hospital, also the operations
 * manager's default), and the inventory rows of the selected hospital that
 * the operations manager, supervisor and auxiliary dashboards show.
 */
module RoleShell {
  import opened Common
  import opened Types

  /**
   * `user.hospital && user.hospital_id ? [{ id: user.hospital_id, name: user.hospital.name }] : []`:
   * one entry, carrying the user's `hospital_id` and the joined record's
   * name, exactly when both are present.
   */
  function OwnHospitalList(user: User): (r: seq<HospitalRef>)
    ensures |r| <= 1
    ensures |r| == 1 <==> user.hospital.Some? && user.hospitalId != ""
    ensures |r| == 1 ==> r[0] == HospitalRef(user.hospitalId, user.hospital.value.name)
  {
    if user.hospital.Some? && user.hospitalId != "" then [HospitalRef(user.hospitalId, user.hospital.value.name)] else []
  }

  /** `hospitals.length > 0 ? hospitals[0].id : null` */
  function FirstId(hospitals: seq<HospitalRef>): (r: Option<string>)
    ensures r.None? <==> |hospitals| == 0
    ensures r.Some? ==> r.value == hospitals[0].id
  {
    if |hospitals| > 0 then Some(hospitals[0].id) else None
  }

  /** The list's only entry is selected, and it is the user's hospital, whenever the user has one. */
  lemma OwnHospitalSelected(user: User)
    ensures FirstId(OwnHospitalList(user)) == (if user.hospital.Some? && user.hospitalId != "" then Some(user.hospitalId) else None)
  {
  }

  /**
   * The rows of the selected hospital, in order, and none without a
   * selection: `filteredInventory` of the operations manager and the
   * `fetchInventory` query of the supervisor and auxiliary dashboards.
   */
  function HospitalRows(inventory: seq<Inventory>, sel: Option<string>): (r: seq<Inventory>)
    ensures !Chosen(sel) ==> r == []
    ensures Chosen(sel) ==> forall x :: x in r <==> x in inventory && x.hospitalId == sel.value
    ensures |r| <= |inventory|
  {
    if !Chosen(sel) then []
    else Filter(inventory, (x: Inventory) => x.hospitalId == sel.value)
  }
}
