/**
 * The records of the folio workflow (lib/types.ts). Strings that the source
 * declares `string | null` and only tests for truthiness are plain strings
 * here, with "" standing for null; numbers the source declares nullable are
 * `Option<int>`. Timestamps are uninterpreted strings.
 */
module Types {
  import opened Common

  datatype UserRole =
    | Auxiliar | Lider | Supervisor | Almacen | Gerente | GerenteAlmacen | CadenaSuministro

  const AllRoles: seq<UserRole> :=
    [Auxiliar, Lider, Supervisor, Almacen, Gerente, GerenteAlmacen, CadenaSuministro]

  /** There are exactly seven roles: every role is listed, once. */
  lemma RoleVocabulary()
    ensures |AllRoles| == 7
    ensures forall r: UserRole :: r in AllRoles
    ensures forall i, j :: 0 <= i < j < |AllRoles| ==> AllRoles[i] != AllRoles[j]
  {
    forall r: UserRole ensures r in AllRoles {
      match r {
        case Auxiliar => assert AllRoles[0] == r;
        case Lider => assert AllRoles[1] == r;
        case Supervisor => assert AllRoles[2] == r;
        case Almacen => assert AllRoles[3] == r;
        case Gerente => assert AllRoles[4] == r;
        case GerenteAlmacen => assert AllRoles[5] == r;
        case CadenaSuministro => assert AllRoles[6] == r;
      }
    }
  }

  /**
   * The status column of a folio. lib/types.ts declares five values;
   * the receipt route also writes `entregado_parcial`, so the model has six.
   */
  datatype FolioStatus =
    | Pendiente | AprobadoLider | AprobadoSupervisor | Entregado | EntregadoParcial | Rechazado

  /** The five statuses that lib/types.ts declares. */
  predicate IsDeclaredStatus(s: FolioStatus) {
    s != EntregadoParcial
  }

  const DeclaredStatuses: seq<FolioStatus> :=
    [Pendiente, AprobadoLider, AprobadoSupervisor, Entregado, Rechazado]

  const AllStatuses: seq<FolioStatus> := DeclaredStatuses + [EntregadoParcial]

  /** The text stored in the status column. */
  function StatusName(s: FolioStatus): string {
    match s
    case Pendiente => "pendiente"
    case AprobadoLider => "aprobado_lider"
    case AprobadoSupervisor => "aprobado_supervisor"
    case Entregado => "entregado"
    case EntregadoParcial => "entregado_parcial"
    case Rechazado => "rechazado"
  }

  /** The status a stored text denotes, if any. */
  function ParseStatus(name: string): (r: Option<FolioStatus>)
    ensures r.Some? ==> StatusName(r.value) == name
  {
    if name == "pendiente" then Some(Pendiente)
    else if name == "aprobado_lider" then Some(AprobadoLider)
    else if name == "aprobado_supervisor" then Some(AprobadoSupervisor)
    else if name == "entregado" then Some(Entregado)
    else if name == "entregado_parcial" then Some(EntregadoParcial)
    else if name == "rechazado" then Some(Rechazado)
    else None
  }

  /** Every status is listed once; exactly five of them are declared by lib/types.ts. */
  lemma StatusVocabulary()
    ensures |DeclaredStatuses| == 5 && |AllStatuses| == 6
    ensures forall s :: s in AllStatuses
    ensures forall s :: s in DeclaredStatuses <==> IsDeclaredStatus(s)
    ensures forall i, j :: 0 <= i < j < |AllStatuses| ==> AllStatuses[i] != AllStatuses[j]
  {
    forall s ensures s in AllStatuses {
      if s == EntregadoParcial {
        assert AllStatuses[5] == s;
      } else {
        assert s in DeclaredStatuses;
      }
    }
  }

  /** Reading back a stored status name gives the status. */
  lemma ParseStatusName(s: FolioStatus)
    ensures ParseStatus(StatusName(s)) == Some(s)
  {
  }

  datatype FolioPriority = Normal | Urgente

  datatype Hospital = Hospital(id: string, name: string, location: string)

  /** The `{ id, name }` pair by which the dashboards and their shell refer to a hospital. */
  datatype HospitalRef = HospitalRef(id: string, name: string)

  /**
   * A user; `hospital` is the joined hospital record that the dashboards
   * receive next to the row (`User & { hospital?: any }`), of which only the
   * id and name are read. A null `hospital_id` is `""`.
   */
  datatype User = User(
    id: string, email: string, fullName: string, role: UserRole,
    hospitalId: string, hospital: Option<HospitalRef>)

  datatype Product = Product(
    id: string, name: string, description: string, unit: string, category: string, minStock: int)

  /**
   * One product at one hospital with its quantity on hand. `product` and
   * `hospital` are the joined records; `minQuantity` is the optional
   * `min_quantity` column that the inventory screen reads untyped.
   */
  datatype Inventory = Inventory(
    id: string, hospitalId: string, productId: string, quantity: int, updatedAt: string,
    product: Option<Product>, hospital: Option<Hospital>,
    expirationDate: Option<string>, minQuantity: Option<int>)

  datatype FolioRequest = FolioRequest(
    id: string, folioNumber: string, auxiliarId: string, hospitalId: string,
    status: FolioStatus, priority: FolioPriority, notes: string,
    rejectedBy: string, rejectionReason: string, createdAt: string, updatedAt: string,
    patientName: string, patientAge: Option<int>, patientGender: string, patientNss: string,
    surgeryType: string, isUrgent: bool, anesthesiaType: string, surgeonName: string,
    anesthesiologistName: string, procedureTime: string)

  datatype FolioItem = FolioItem(
    id: string, folioId: string, productId: string,
    quantityRequested: int, quantityApproved: Option<int>, product: Option<Product>)

  /** A folio as the dashboards receive it: the row with its joined items. */
  datatype FolioView = FolioView(folio: FolioRequest, items: seq<FolioItem>)

  datatype FolioHistory = FolioHistory(
    folioId: string, userId: string, action: string,
    previousStatus: Option<FolioStatus>, newStatus: Option<FolioStatus>, notes: Option<string>)

  /** The pair that identifies an inventory row: at most one row per hospital and product. */
  datatype InvKey = InvKey(hospitalId: string, productId: string)

  function KeyOf(inv: Inventory): InvKey {
    InvKey(inv.hospitalId, inv.productId)
  }
}
