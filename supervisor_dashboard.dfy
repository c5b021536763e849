/**
 * The supervisor's dashboard (components/supervisor/supervisor-dashboard.tsx):
 * the hospital selection and the user handed to the folio form, what the
 * folio and inventory fetches keep, the pending/approved/rejected split and
 * the history total. The initial selection, `hospitals[0]?.id ?? null`, is
 * `RoleShell.FirstId`.
 *
 * A fetch is the rows of the table it filters; the query's ordering and a
 * failed query (which also empties the list) are not part of this model.
 */
module SupervisorDashboard {
  import opened Common
  import opened Types
  import opened RoleShell

  /** `hospitals.find((h) => h.id === selectedHospitalId) ?? null`: a listed hospital with that id, if any. */
  function SelectedHospital(hospitals: seq<HospitalRef>, sel: Option<string>): (r: Option<HospitalRef>)
    ensures r.Some? <==> sel.Some? && exists h :: h in hospitals && h.id == sel.value
    ensures r.Some? ==> r.value in hospitals && r.value.id == sel.value
    decreases |hospitals|
  {
    if sel.None? || |hospitals| == 0 then None
    else if hospitals[0].id == sel.value then Some(hospitals[0])
    else SelectedHospital(hospitals[1..], sel)
  }

  /**
   * `userWithSelectedHospital`: the user with the selected hospital's id and
   * record, or with neither when no listed hospital is selected.
   */
  function ActingUser(user: User, hospitals: seq<HospitalRef>, sel: Option<string>): (r: User)
    ensures SelectedHospital(hospitals, sel).Some? ==>
      r.hospitalId == sel.value && r.hospital == SelectedHospital(hospitals, sel)
    ensures SelectedHospital(hospitals, sel).None? ==> r.hospitalId == "" && r.hospital == None
    ensures r.(hospitalId := user.hospitalId, hospital := user.hospital) == user
  {
    match SelectedHospital(hospitals, sel)
    case Some(h) => user.(hospitalId := h.id, hospital := Some(h))
    case None => user.(hospitalId := "", hospital := None)
  }

  /**
   * `fetchFolios`: nothing without a hospital; else the folios of that
   * hospital whose status is one of the five of lib/types.ts.
   */
  function FetchedFolios(folios: seq<FolioRequest>, sel: Option<string>): (r: seq<FolioRequest>)
    ensures !Chosen(sel) ==> r == []
    ensures Chosen(sel) ==> forall f :: f in r <==> f in folios && f.hospitalId == sel.value && IsDeclaredStatus(f.status)
    ensures forall i :: 0 <= i < |r| ==> IsDeclaredStatus(r[i].status)
  {
    if !Chosen(sel) then []
    else Filter(folios, (f: FolioRequest) => f.hospitalId == sel.value && IsDeclaredStatus(f.status))
  }

  predicate IsPending(f: FolioRequest) {
    f.status == Pendiente
  }

  predicate IsApproved(f: FolioRequest) {
    f.status in {AprobadoLider, AprobadoSupervisor, Entregado}
  }

  predicate IsRejected(f: FolioRequest) {
    f.status == Rechazado
  }

  /** The three groups never share a folio, whatever list they are taken from. */
  lemma GroupsDisjoint(folios: seq<FolioRequest>)
    ensures forall f :: f in Filter(folios, IsPending) ==> f !in Filter(folios, IsApproved) && f !in Filter(folios, IsRejected)
    ensures forall f :: f in Filter(folios, IsApproved) ==> f !in Filter(folios, IsRejected)
    ensures |Filter(folios, IsPending)| + |Filter(folios, IsApproved)| + |Filter(folios, IsRejected)| <= |folios|
  {
    ExclusiveCountsBounded(folios, IsPending, IsApproved, IsRejected);
  }

  /**
   * On what `fetchFolios` keeps, every folio is in exactly one group: the
   * status restriction of the query leaves out the partially delivered
   * folios, the only ones the groups miss.
   */
  lemma FetchedGroupsCover(folios: seq<FolioRequest>, sel: Option<string>)
    ensures var fs := FetchedFolios(folios, sel);
      |Filter(fs, IsPending)| + |Filter(fs, IsApproved)| + |Filter(fs, IsRejected)| == |fs|
  {
    var fs := FetchedFolios(folios, sel);
    forall f | f in fs ensures Indicator(IsPending(f)) + Indicator(IsApproved(f)) + Indicator(IsRejected(f)) == 1 {
      var i :| 0 <= i < |fs| && fs[i] == f;
      assert IsDeclaredStatus(fs[i].status);
    }
    PartitionCounts(fs, IsPending, IsApproved, IsRejected);
  }

  /** "Total histórico": the approved plus the rejected folios. */
  function HistoryTotal(folios: seq<FolioRequest>): (n: nat)
    ensures n <= |folios|
  {
    ExclusiveCountsBounded(folios, IsApproved, IsRejected, (f: FolioRequest) => false);
    |Filter(folios, IsApproved)| + |Filter(folios, IsRejected)|
  }

  /** On the fetched folios the history total counts every folio that is not pending. */
  lemma HistoryIsNotPending(folios: seq<FolioRequest>, sel: Option<string>)
    ensures var fs := FetchedFolios(folios, sel);
      HistoryTotal(fs) == |fs| - |Filter(fs, IsPending)|
  {
    FetchedGroupsCover(folios, sel);
  }
}
