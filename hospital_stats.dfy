/**
 * The per-hospital summary cards (components/gerente/hospital-stats.tsx):
 * for each hospital, its folios and inventory rows, the folio counts by
 * stage and the number of low-stock rows. The delivery rate, a floating
 * point percentage, is not part of this model.
 */
module HospitalStats {
  import opened Common
  import opened Types
  import opened LowStock

  /** The numbers one card shows. */
  datatype Card = Card(total: nat, inProcess: nat, delivered: nat, rejected: nat, inventory: nat, lowStock: nat)

  /** `hospitalFolios`: the folios of hospital `id`, in order. */
  function FoliosOf(folios: seq<FolioRequest>, id: string): (r: seq<FolioRequest>)
    ensures forall f :: f in r <==> f in folios && f.hospitalId == id
    ensures |r| <= |folios|
  {
    Filter(folios, (f: FolioRequest) => f.hospitalId == id)
  }

  /** `hospitalInventory`: the rows of hospital `id`, in order. */
  function InventoryOf(inventory: seq<Inventory>, id: string): (r: seq<Inventory>)
    ensures forall x :: x in r <==> x in inventory && x.hospitalId == id
    ensures |r| <= |inventory|
  {
    Filter(inventory, (x: Inventory) => x.hospitalId == id)
  }

  /** "En Proceso": pending, approved by the leader or approved by the supervisor. */
  predicate InProcess(f: FolioRequest) {
    f.status == Pendiente || f.status == AprobadoLider || f.status == AprobadoSupervisor
  }

  predicate Delivered(f: FolioRequest) {
    f.status == Entregado
  }

  predicate Rejected(f: FolioRequest) {
    f.status == Rechazado
  }

  /** The card of hospital `h`. */
  function CardOf(h: Hospital, folios: seq<FolioRequest>, inventory: seq<Inventory>): Card {
    var mine := FoliosOf(folios, h.id);
    var stock := InventoryOf(inventory, h.id);
    Card(|mine|, |Filter(mine, InProcess)|, |Filter(mine, Delivered)|, |Filter(mine, Rejected)|,
         |stock|, |LowStockOf(stock)|)
  }

  /**
   * On every card the three stages together never exceed the total: a
   * folio is in at most one stage, and a partially delivered one is in none.
   */
  lemma StagesWithinTotal(h: Hospital, folios: seq<FolioRequest>, inventory: seq<Inventory>)
    ensures var c := CardOf(h, folios, inventory);
      c.inProcess + c.delivered + c.rejected <= c.total && c.lowStock <= c.inventory
      && c.total <= |folios| && c.inventory <= |inventory|
  {
    var mine := FoliosOf(folios, h.id);
    ExclusiveCountsBounded(mine, InProcess, Delivered, Rejected);
  }

  /** A hospital's partially delivered folio is counted in no stage, so its card's stages fall short of the total. */
  lemma PartialFolioUncounted(h: Hospital, folios: seq<FolioRequest>, inventory: seq<Inventory>, f: FolioRequest)
    requires f in folios && f.hospitalId == h.id && f.status == EntregadoParcial
    ensures var c := CardOf(h, folios, inventory);
      c.inProcess + c.delivered + c.rejected < c.total
  {
    StrictWhenOneUncounted(FoliosOf(folios, h.id), f);
  }

  /** One folio outside every stage makes the three stage counts smaller than the list. */
  lemma {:induction false} StrictWhenOneUncounted(s: seq<FolioRequest>, f: FolioRequest)
    requires f in s && !InProcess(f) && !Delivered(f) && !Rejected(f)
    ensures |Filter(s, InProcess)| + |Filter(s, Delivered)| + |Filter(s, Rejected)| < |s|
    decreases |s|
  {
    var s' := s[..|s| - 1];
    if s[|s| - 1] == f {
      ExclusiveCountsBounded(s', InProcess, Delivered, Rejected);
    } else {
      var i :| 0 <= i < |s| && s[i] == f;
      assert s'[i] == f;
      StrictWhenOneUncounted(s', f);
    }
  }

  /** The cards, one per hospital in the order given. */
  function Cards(hospitals: seq<Hospital>, folios: seq<FolioRequest>, inventory: seq<Inventory>): (r: seq<Card>)
    ensures |r| == |hospitals|
    ensures forall i :: 0 <= i < |hospitals| ==> r[i] == CardOf(hospitals[i], folios, inventory)
  {
    seq(|hospitals|, i requires 0 <= i < |hospitals| => CardOf(hospitals[i], folios, inventory))
  }
}
