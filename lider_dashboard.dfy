/**
 * The team leader's dashboard (components/lider/lider-dashboard.tsx): the
 * folios split into pending, approved and rejected, where "approved" is
 * everything that is neither pending nor rejected, and the hospital list
 * (`RoleShell.OwnHospitalList`).
 */
module LiderDashboard {
  import opened Common
  import opened Types

  predicate IsPending(f: FolioRequest) {
    f.status == Pendiente
  }

  /** Every status other than `pendiente` and `rechazado`, partially delivered included. */
  predicate IsApproved(f: FolioRequest) {
    f.status != Pendiente && f.status != Rechazado
  }

  predicate IsRejected(f: FolioRequest) {
    f.status == Rechazado
  }

  /** The three tabs as lists, in the order of `folios`. */
  datatype Groups = Groups(pending: seq<FolioRequest>, approved: seq<FolioRequest>, rejected: seq<FolioRequest>)

  function GroupsOf(folios: seq<FolioRequest>): (g: Groups)
    ensures forall f :: f in g.pending <==> f in folios && f.status == Pendiente
    ensures forall f :: f in g.rejected <==> f in folios && f.status == Rechazado
    ensures forall f :: f in g.approved <==> f in folios && f.status in {AprobadoLider, AprobadoSupervisor, Entregado, EntregadoParcial}
  {
    Groups(Filter(folios, IsPending), Filter(folios, IsApproved), Filter(folios, IsRejected))
  }

  /**
   * The tabs partition the folios: they are pairwise disjoint and their
   * sizes add up to the number of folios, whatever the statuses.
   */
  lemma GroupsPartition(folios: seq<FolioRequest>)
    ensures var g := GroupsOf(folios);
      |g.pending| + |g.approved| + |g.rejected| == |folios|
      && (forall f :: f in g.pending ==> f !in g.approved && f !in g.rejected)
      && (forall f :: f in g.approved ==> f !in g.rejected)
  {
    PartitionCounts(folios, IsPending, IsApproved, IsRejected);
  }
}
