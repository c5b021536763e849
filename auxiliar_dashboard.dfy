/**
 * The nursing assistant's dashboard (components/auxiliar/auxiliar-dashboard.tsx):
 * the hospitals offered, the initial selection, what the folio and
 * inventory fetches keep and the pending/approved/rejected split, which is
 * the leader's (`LiderDashboard.GroupsOf`): approved is everything neither
 * pending nor rejected.
 *
 * A fetch is the rows of the table it filters; the query's ordering and a
 * failed query (which also empties the list) are not part of this model. A
 * null selection is `None`, and a selected id of `""` is as falsy as none.
 */
module AuxiliarDashboard {
  import opened Common
  import opened Types
  import opened LiderDashboard

  /**
   * `displayHospitals`: the hospitals passed in when there are any, else the
   * user's joined hospital alone, else none.
   */
  function DisplayHospitals(hospitals: seq<HospitalRef>, user: User): (r: seq<HospitalRef>)
    ensures |hospitals| > 0 ==> r == hospitals
    ensures |hospitals| == 0 && user.hospital.Some? ==> r == [user.hospital.value]
    ensures |r| == 0 <==> |hospitals| == 0 && user.hospital.None?
  {
    if |hospitals| > 0 then hospitals
    else if user.hospital.Some? then [HospitalRef(user.hospital.value.id, user.hospital.value.name)]
    else []
  }

  /**
   * The initial `selectedHospitalId`: the first truthy one of the user's
   * `hospital_id`, the joined hospital's id and the first displayed
   * hospital's id, else null.
   */
  function InitialSelection(user: User, display: seq<HospitalRef>): (r: Option<string>)
    ensures r.Some? ==> r.value != ""
    ensures user.hospitalId != "" ==> r == Some(user.hospitalId)
    ensures user.hospitalId == "" && user.hospital.Some? && user.hospital.value.id != "" ==> r == Some(user.hospital.value.id)
    ensures r.None? <==>
      user.hospitalId == "" && (user.hospital.None? || user.hospital.value.id == "") && (|display| == 0 || display[0].id == "")
  {
    if user.hospitalId != "" then Some(user.hospitalId)
    else if user.hospital.Some? && user.hospital.value.id != "" then Some(user.hospital.value.id)
    else if |display| > 0 && display[0].id != "" then Some(display[0].id)
    else None
  }

  /**
   * On the hospitals the page computes for itself, a user with a joined
   * hospital starts on a hospital: with no `hospital_id`, the joined one.
   */
  lemma InitialSelectionOfOwnHospital(user: User)
    requires user.hospital.Some? && user.hospital.value.id != ""
    ensures InitialSelection(user, DisplayHospitals([], user)).Some?
    ensures user.hospitalId == "" ==> InitialSelection(user, DisplayHospitals([], user)) == Some(user.hospital.value.id)
  {
  }

  /** `fetchFolios`: always the user's own folios, and only those of the selected hospital when one is selected. */
  function FetchedFolios(folios: seq<FolioRequest>, userId: string, sel: Option<string>): (r: seq<FolioRequest>)
    ensures forall f :: f in r <==> f in folios && f.auxiliarId == userId && (!Chosen(sel) || f.hospitalId == sel.value)
    ensures |r| <= |folios|
  {
    Filter(folios, (f: FolioRequest) => f.auxiliarId == userId && (!Chosen(sel) || f.hospitalId == sel.value))
  }

  /**
   * The dashboard's three tabs split the fetched folios: every folio the
   * user created (at the selected hospital, if any) is in exactly one tab,
   * and no tab holds a folio of another user.
   */
  lemma FetchedGroupsPartition(folios: seq<FolioRequest>, userId: string, sel: Option<string>)
    ensures var fs := FetchedFolios(folios, userId, sel); var g := GroupsOf(fs);
      |g.pending| + |g.approved| + |g.rejected| == |fs|
      && (forall f :: f in g.pending + g.approved + g.rejected ==> f in folios && f.auxiliarId == userId)
      && (forall f :: f in g.pending ==> f !in g.approved && f !in g.rejected)
      && (forall f :: f in g.approved ==> f !in g.rejected)
  {
    GroupsPartition(FetchedFolios(folios, userId, sel));
  }
}
