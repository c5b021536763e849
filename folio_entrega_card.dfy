/**
 * The hospital's receipt card (components/almacen/folio-entrega-card.tsx):
 * the received quantity entered for each line, the request it sends to the
 * receipt endpoint, the "complete delivery" indicator, and the message it
 * shows for the response.
 *
 * An entry arrives as the value of `Number(text)`; `None` stands for `NaN`.
 */
module FolioEntregaCard {
  import opened Common
  import opened Types
  import opened ProcesarFolio

  datatype CardItem = CardItem(id: string, insumoId: string, nombreInsumo: string, cantidadSolicitada: real)

  /** The initial `cantidadesRecibidas`: each line's requested quantity, a later line winning on a repeated id. */
  function InitialRecibidas(items: seq<CardItem>): (m: map<string, real>)
    ensures forall id :: id in m <==> exists i :: 0 <= i < |items| && items[i].id == id
    decreases |items|
  {
    if |items| == 0 then map[]
    else
      var last := items[|items| - 1];
      var m := InitialRecibidas(items[..|items| - 1]);
      assert forall i :: 0 <= i < |items| - 1 ==> items[..|items| - 1][i] == items[i];
      m[last.id := last.cantidadSolicitada]
  }

  /** No two lines share an id. */
  predicate DistinctIds(items: seq<CardItem>) {
    forall i, j :: 0 <= i < j < |items| ==> items[i].id != items[j].id
  }

  /** With distinct ids, every line starts at its requested quantity. */
  lemma {:induction false} InitialIsRequested(items: seq<CardItem>, i: nat)
    requires DistinctIds(items) && i < |items|
    ensures items[i].id in InitialRecibidas(items)
    ensures InitialRecibidas(items)[items[i].id] == items[i].cantidadSolicitada
    decreases |items|
  {
    if i < |items| - 1 {
      var prefix := items[..|items| - 1];
      assert prefix[i] == items[i];
      InitialIsRequested(prefix, i);
    }
  }

  /** `accion === "rechazar" ? 0 : cantidadesRecibidas[item.id] ?? 0` */
  function Recibida(accion: string, cantidades: map<string, real>, item: CardItem): real {
    if accion == "rechazar" then 0.0
    else if item.id in cantidades then cantidades[item.id]
    else 0.0
  }

  /** The `items` of the payload: one entry per line, in order. */
  function PayloadItems(accion: string, cantidades: map<string, real>, items: seq<CardItem>): (r: seq<ItemPayload>)
    ensures |r| == |items|
    ensures forall i :: 0 <= i < |items| ==>
      r[i] == ItemPayload(items[i].id, items[i].insumoId, Some(items[i].cantidadSolicitada),
                          Some(Recibida(accion, cantidades, items[i])))
  {
    seq(|items|, i requires 0 <= i < |items| =>
      ItemPayload(items[i].id, items[i].insumoId, Some(items[i].cantidadSolicitada),
                  Some(Recibida(accion, cantidades, items[i]))))
  }

  /** The body `procesarFolio` posts. */
  function Payload(folioId: string, hospitalId: string, accion: string, cantidades: map<string, real>, items: seq<CardItem>)
    : Body
  {
    Body(folioId, hospitalId, accion, List(PayloadItems(accion, cantidades, items)))
  }

  /** `esEntregaCompleta`: every line's entry equals its request and is positive. */
  predicate EsEntregaCompleta(items: seq<CardItem>, cantidades: map<string, real>) {
    forall i :: 0 <= i < |items| ==>
      items[i].id in cantidades
      && cantidades[items[i].id] == items[i].cantidadSolicitada
      && cantidades[items[i].id] > 0.0
  }

  /** Every entry is a whole number, as the quantity inputs produce. */
  predicate WholeEntries(cantidades: map<string, real>) {
    forall id :: id in cantidades ==> cantidades[id] == cantidades[id].Floor as real
  }

  /** A complete card with whole entries sends a delivery the endpoint also finds complete. */
  lemma CompleteCardIsCompleteDelivery(hospitalId: string, folioId: string, items: seq<CardItem>, cantidades: map<string, real>)
    requires EsEntregaCompleta(items, cantidades) && WholeEntries(cantidades)
    ensures Complete(PayloadItems("aceptar", cantidades, items))
  {
    var p := PayloadItems("aceptar", cantidades, items);
    forall i | 0 <= i < |p| ensures Matches(p[i]) {
      var c := cantidades[items[i].id];
      assert c == c.Floor as real;
      assert Normalize(Some(c)) == c.Floor;
    }
  }

  /** The converse fails: a line requested and received as 0 is complete for the endpoint only. */
  lemma ZeroLineCompleteOnlyForEndpoint()
    ensures var items := [CardItem("i1", "p1", "Gasas", 0.0)];
      var cantidades := map["i1" := 0.0];
      Complete(PayloadItems("aceptar", cantidades, items)) && !EsEntregaCompleta(items, cantidades)
  {
    var items := [CardItem("i1", "p1", "Gasas", 0.0)];
    var cantidades := map["i1" := 0.0];
    assert PayloadItems("aceptar", cantidades, items)[0].cantidadRecibida == Some(0.0);
  }

  /** A fractional entry equal to the request is complete on the card and partial for the endpoint. */
  lemma FractionCompleteOnlyOnCard()
    ensures var items := [CardItem("i1", "p1", "Gasas", 2.5)];
      var cantidades := map["i1" := 2.5];
      EsEntregaCompleta(items, cantidades) && !Complete(PayloadItems("aceptar", cantidades, items))
  {
    var items := [CardItem("i1", "p1", "Gasas", 2.5)];
    var cantidades := map["i1" := 2.5];
    var p := PayloadItems("aceptar", cantidades, items);
    assert Normalize(p[0].cantidadRecibida) == 2;
  }

  /** On `rechazar` every payload line carries 0, whatever was entered. */
  lemma RejectSendsZero(cantidades: map<string, real>, items: seq<CardItem>, i: nat)
    requires i < |items|
    ensures PayloadItems("rechazar", cantidades, items)[i].cantidadRecibida == Some(0.0)
    ensures Normalize(PayloadItems("rechazar", cantidades, items)[i].cantidadRecibida) == 0
  {
  }

  /**
   * End to end: a complete card with whole entries, accepted, is answered
   * `entregado` by the endpoint when no call fails, and the card says so.
   */
  lemma CompleteCardIsDelivered(t: Tables, folioId: string, hospitalId: string, items: seq<CardItem>,
                                cantidades: map<string, real>, now: string)
    requires folioId != "" && hospitalId != ""
    requires EsEntregaCompleta(items, cantidades) && WholeEntries(cantidades)
    ensures var res := Respond(t, Some(Payload(folioId, hospitalId, "aceptar", cantidades, items)), now, NoFault).0;
      res == Ok(Entregado) && Notice("aceptar", res) == Success("Folio entregado y stock actualizado.")
  {
    var b := Payload(folioId, hospitalId, "aceptar", cantidades, items);
    CompleteCardIsCompleteDelivery(hospitalId, folioId, items, cantidades);
    AcceptStatus(t, b, now);
  }

  /** What the card shows after the request. */
  datatype CardNotice = Success(text: string) | Failure(text: string)

  /** The success or error message for the response of an `accion` request. */
  function Notice(accion: string, res: HttpResult): (r: CardNotice)
    ensures r.Failure? <==> res.Err?
  {
    match res
    case Err(_, message) => Failure(if message != "" then message else "Error al procesar el folio")
    case Ok(status) =>
      if accion == "aceptar" then
        if status == Entregado then Success("Folio entregado y stock actualizado.")
        else Success("Folio entregado parcialmente y stock actualizado.")
      else Success("Folio marcado como rechazado.")
  }

  class EntregaCard {
    const folioId: string
    const hospitalId: string
    const items: seq<CardItem>
    var cantidades: map<string, real>

    /** The `reduce` that fills the initial entries. */
    constructor(folioId: string, hospitalId: string, items: seq<CardItem>)
      ensures this.folioId == folioId && this.hospitalId == hospitalId && this.items == items
      ensures cantidades == InitialRecibidas(items)
    {
      this.folioId := folioId;
      this.hospitalId := hospitalId;
      this.items := items;
      var acc: map<string, real> := map[];
      var i := 0;
      while i < |items|
        invariant 0 <= i <= |items|
        invariant acc == InitialRecibidas(items[..i])
      {
        assert items[..i + 1][..i] == items[..i];
        acc := acc[items[i].id := items[i].cantidadSolicitada];
        i := i + 1;
      }
      assert items[..|items|] == items;
      cantidades := acc;
    }

    /** `handleCantidadChange`: a NaN or negative entry is ignored; otherwise only that line changes. */
    method HandleCantidadChange(itemId: string, num: Option<real>)
      modifies this
      ensures num.None? || num.value < 0.0 ==> cantidades == old(cantidades)
      ensures num.Some? && num.value >= 0.0 ==> cantidades == old(cantidades)[itemId := num.value]
    {
      if num.None? || num.value < 0.0 {
        return;
      }
      cantidades := cantidades[itemId := num.value];
    }

    /** The body `procesarFolio(accion)` posts. */
    function Request(accion: string): Body
      reads this
    {
      Payload(folioId, hospitalId, accion, cantidades, items)
    }

    function Completa(): bool
      reads this
    {
      EsEntregaCompleta(items, cantidades)
    }
  }
}
