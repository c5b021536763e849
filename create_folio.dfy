/**
 * The auxiliary's "new folio" dialog (components/auxiliar/create-folio-dialog.tsx):
 * the editable list of product lines, the ordered validation of the form,
 * the folio number, and the three inserts of a submission (the header as
 * `pendiente`, one `folio_items` row per valid line, a history row).
 *
 * A line's quantity is the value of `Number.parseInt` on its input; `None`
 * stands for `NaN`. The id the database assigns to the new header is the
 * parameter `newFolioId`, `Date.now()` is `stamp` and the database's
 * timestamp is `now`. Which insert fails, and with what, is `fault`.
 */
module CreateFolio {
  import opened Common
  import opened Text
  import opened Types
  import opened Store

  /** One product line of the form. */
  datatype FormLine = FormLine(productId: string, quantity: Option<int>)

  /** The line `handleAddItem` appends and the form starts with. */
  const BlankLine := FormLine("", Some(1))

  /** The text fields and switches of the dialog. */
  datatype FolioForm = FolioForm(
    patientName: string, patientAge: string, patientGender: string, patientNss: string,
    surgeryType: string, isEmergency: bool, anesthesiaType: string, surgeonName: string,
    anesthesiologistName: string, procedureTime: string, priority: FolioPriority, notes: string)

  const EmptyForm := FolioForm("", "", "", "", "", false, "", "", "", "", Normal, "")

  /** Why `handleSubmit` refuses a form: one value per check, in the order of the checks. */
  datatype Refusal =
    | NoUser | NoHospital | NoPatientName | BadPatientAge | NoPatientGender | NoPatientNss
    | NoSurgeryType | NoAnesthesiaType | NoSurgeon | NoAnesthesiologist | NoProcedureTime | NoProducts

  /** The message `handleSubmit` sets for each refusal. */
  function RefusalMessage(r: Refusal): string {
    match r
    case NoUser => "Tu usuario no está correctamente identificado. Vuelve a iniciar sesión."
    case NoHospital => "Tu usuario no tiene un hospital asignado. Contacta al administrador."
    case NoPatientName => "El nombre del paciente es obligatorio"
    case BadPatientAge => "La edad del paciente debe ser un número entre 0 y 120"
    case NoPatientGender => "El sexo del paciente es obligatorio"
    case NoPatientNss => "El número de seguro social es obligatorio"
    case NoSurgeryType => "El tipo de cirugía es obligatorio"
    case NoAnesthesiaType => "El tipo de anestesia es obligatorio"
    case NoSurgeon => "Debes seleccionar el cirujano"
    case NoAnesthesiologist => "Debes seleccionar el anestesiólogo"
    case NoProcedureTime => "La hora del procedimiento es obligatoria"
    case NoProducts => "Debes agregar al menos un producto"
  }

  /** `!patientAge || isNaN(age) || age < 0 || age > 120` does not hold. */
  predicate AgeOk(text: string) {
    text != "" && ParseInt(text).Some? && 0 <= ParseInt(text).value <= 120
  }

  /** `item.product_id && item.quantity > 0` */
  predicate IsValidLine(line: FormLine) {
    line.productId != "" && line.quantity.Some? && line.quantity.value > 0
  }

  /** `validItems`: the valid lines, in order. */
  function ValidItems(lines: seq<FormLine>): (r: seq<FormLine>)
    ensures forall x :: x in r <==> x in lines && IsValidLine(x)
    ensures forall i :: 0 <= i < |r| ==> IsValidLine(r[i])
    ensures |r| <= |lines|
  {
    Filter(lines, IsValidLine)
  }

  /** The position of a refusal's check in the order `handleSubmit` makes them. */
  function Rank(r: Refusal): nat {
    match r
    case NoUser => 0
    case NoHospital => 1
    case NoPatientName => 2
    case BadPatientAge => 3
    case NoPatientGender => 4
    case NoPatientNss => 5
    case NoSurgeryType => 6
    case NoAnesthesiaType => 7
    case NoSurgeon => 8
    case NoAnesthesiologist => 9
    case NoProcedureTime => 10
    case NoProducts => 11
  }

  /** The condition whose failure is that refusal. */
  predicate Holds(r: Refusal, user: User, form: FolioForm, lines: seq<FormLine>) {
    match r
    case NoUser => user.id != ""
    case NoHospital => user.hospitalId != ""
    case NoPatientName => Trim(form.patientName) != ""
    case BadPatientAge => AgeOk(form.patientAge)
    case NoPatientGender => form.patientGender != ""
    case NoPatientNss => Trim(form.patientNss) != ""
    case NoSurgeryType => Trim(form.surgeryType) != ""
    case NoAnesthesiaType => form.anesthesiaType != ""
    case NoSurgeon => form.surgeonName != ""
    case NoAnesthesiologist => form.anesthesiologistName != ""
    case NoProcedureTime => form.procedureTime != ""
    case NoProducts => |ValidItems(lines)| > 0
  }

  /** Everything `handleSubmit` requires before writing, as one condition. */
  predicate Acceptable(user: User, form: FolioForm, lines: seq<FormLine>) {
    user.id != "" && user.hospitalId != "" && Trim(form.patientName) != "" && AgeOk(form.patientAge)
    && form.patientGender != "" && Trim(form.patientNss) != "" && Trim(form.surgeryType) != ""
    && form.anesthesiaType != "" && form.surgeonName != "" && form.anesthesiologistName != ""
    && form.procedureTime != "" && |ValidItems(lines)| > 0
  }

  /**
   * The refusal of the first condition, in the order `handleSubmit` checks
   * them, that does not hold, or `None` when all hold.
   */
  function FirstRefused(holds: Refusal -> bool): (r: Option<Refusal>)
  {
    if !holds(NoUser) then Some(NoUser)
    else if !holds(NoHospital) then Some(NoHospital)
    else if !holds(NoPatientName) then Some(NoPatientName)
    else if !holds(BadPatientAge) then Some(BadPatientAge)
    else if !holds(NoPatientGender) then Some(NoPatientGender)
    else if !holds(NoPatientNss) then Some(NoPatientNss)
    else if !holds(NoSurgeryType) then Some(NoSurgeryType)
    else if !holds(NoAnesthesiaType) then Some(NoAnesthesiaType)
    else if !holds(NoSurgeon) then Some(NoSurgeon)
    else if !holds(NoAnesthesiologist) then Some(NoAnesthesiologist)
    else if !holds(NoProcedureTime) then Some(NoProcedureTime)
    else if !holds(NoProducts) then Some(NoProducts)
    else None
  }

  /**
   * Only the first failing condition is reported: the refused condition does
   * not hold, every condition checked before it does, and there is no
   * refusal exactly when every condition holds.
   */
  lemma FirstRefusedIsFirst(holds: Refusal -> bool, q: Refusal)
    ensures FirstRefused(holds).None? ==> holds(q)
    ensures FirstRefused(holds).Some? ==> !holds(FirstRefused(holds).value)
    ensures FirstRefused(holds).Some? && Rank(q) < Rank(FirstRefused(holds).value) ==> holds(q)
  {
  }

  /** There is no refusal exactly when every condition holds. */
  lemma NoRefusalIffAllHold(holds: Refusal -> bool)
    ensures FirstRefused(holds).None? <==> forall q :: holds(q)
  {
    if FirstRefused(holds).None? {
      forall q ensures holds(q) {
        FirstRefusedIsFirst(holds, q);
      }
    }
  }

  /** An acceptable form meets each of the twelve conditions. */
  lemma AcceptableHolds(user: User, form: FolioForm, lines: seq<FormLine>, q: Refusal)
    requires Acceptable(user, form, lines)
    ensures Holds(q, user, form, lines)
  {
  }

  /** A form meeting each of the twelve conditions is acceptable. */
  lemma HoldsAcceptable(user: User, form: FolioForm, lines: seq<FormLine>)
    requires forall q :: Holds(q, user, form, lines)
    ensures Acceptable(user, form, lines)
  {
    assert Holds(NoUser, user, form, lines) && Holds(NoHospital, user, form, lines);
    assert Holds(NoPatientName, user, form, lines) && Holds(BadPatientAge, user, form, lines);
    assert Holds(NoPatientGender, user, form, lines) && Holds(NoPatientNss, user, form, lines);
    assert Holds(NoSurgeryType, user, form, lines) && Holds(NoAnesthesiaType, user, form, lines);
    assert Holds(NoSurgeon, user, form, lines) && Holds(NoAnesthesiologist, user, form, lines);
    assert Holds(NoProcedureTime, user, form, lines) && Holds(NoProducts, user, form, lines);
  }

  /** The twelve conditions together are `Acceptable`. */
  lemma AllHoldIffAcceptable(user: User, form: FolioForm, lines: seq<FormLine>)
    ensures (forall q :: Holds(q, user, form, lines)) <==> Acceptable(user, form, lines)
  {
    if Acceptable(user, form, lines) {
      forall q ensures Holds(q, user, form, lines) {
        AcceptableHolds(user, form, lines, q);
      }
    } else if forall q :: Holds(q, user, form, lines) {
      HoldsAcceptable(user, form, lines);
    }
  }

  /** The conditions of one submission, as the argument of `FirstRefused`. */
  function HoldsFor(user: User, form: FolioForm, lines: seq<FormLine>): (holds: Refusal -> bool)
    ensures forall q :: holds(q) == Holds(q, user, form, lines)
  {
    q => Holds(q, user, form, lines)
  }

  /** `FirstRefused` lets a submission through exactly when it is acceptable. */
  lemma NoRefusalIffAcceptable(user: User, form: FolioForm, lines: seq<FormLine>)
    ensures FirstRefused(HoldsFor(user, form, lines)).None? <==> Acceptable(user, form, lines)
  {
    NoRefusalIffAllHold(HoldsFor(user, form, lines));
    AllHoldIffAcceptable(user, form, lines);
  }

  /** The validation of `handleSubmit`, one `if` after the other. */
  function ValidationError(user: User, form: FolioForm, lines: seq<FormLine>): (r: Option<Refusal>)
    ensures r.None? <==> Acceptable(user, form, lines)
  {
    NoRefusalIffAcceptable(user, form, lines);
    FirstRefused(HoldsFor(user, form, lines))
  }

  /**
   * A refused form is refused for its first failing condition: the refused
   * condition does not hold, and every condition checked before it does.
   */
  lemma RefusalIsFirstFailure(user: User, form: FolioForm, lines: seq<FormLine>, q: Refusal)
    requires ValidationError(user, form, lines).Some?
    ensures !Holds(ValidationError(user, form, lines).value, user, form, lines)
    ensures Rank(q) < Rank(ValidationError(user, form, lines).value) ==> Holds(q, user, form, lines)
  {
    FirstRefusedIsFirst(HoldsFor(user, form, lines), q);
  }

  /** The blank line is never valid, so the untouched form cannot be submitted. */
  lemma BlankFormRefused(user: User, form: FolioForm)
    ensures ValidItems([BlankLine]) == []
    ensures !Acceptable(user, form, [BlankLine])
  {
    assert [BlankLine][..0] == [];
  }

  /** `F-${(hospital_id || "GEN").slice(0, 8)}-${Date.now()}` */
  function FolioNumber(hospitalId: string, stamp: nat): string {
    "F-" + Take(if hospitalId == "" then "GEN" else hospitalId, 8) + "-" + NatToString(stamp)
  }

  /** The text after the last `-` of `x` (all of `x` when it has none). */
  function AfterLastDash(x: string): string
    decreases |x|
  {
    if |x| == 0 || x[|x| - 1] == '-' then ""
    else AfterLastDash(x[..|x| - 1]) + [x[|x| - 1]]
  }

  /** The text before the last `-` of `x`. */
  function BeforeLastDash(x: string): string
    decreases |x|
  {
    if |x| == 0 then ""
    else if x[|x| - 1] == '-' then x[..|x| - 1]
    else BeforeLastDash(x[..|x| - 1])
  }

  lemma {:induction false} SplitAtLastDash(p: string, d: string)
    requires forall k :: 0 <= k < |d| ==> d[k] != '-'
    ensures AfterLastDash(p + "-" + d) == d && BeforeLastDash(p + "-" + d) == p
    decreases |d|
  {
    var x := p + "-" + d;
    if |d| == 0 {
      assert x[..|x| - 1] == p;
    } else {
      var d' := d[..|d| - 1];
      assert x[..|x| - 1] == p + "-" + d';
      SplitAtLastDash(p, d');
      assert d == d' + [d[|d| - 1]];
    }
  }

  /**
   * Folio numbers are unambiguous: equal numbers come from the same
   * timestamp and the same hospital prefix (the timestamp has no `-`).
   */
  lemma FolioNumberInjective(h1: string, s1: nat, h2: string, s2: nat)
    requires FolioNumber(h1, s1) == FolioNumber(h2, s2)
    ensures s1 == s2
    ensures Take(if h1 == "" then "GEN" else h1, 8) == Take(if h2 == "" then "GEN" else h2, 8)
  {
    var p1 := "F-" + Take(if h1 == "" then "GEN" else h1, 8);
    var p2 := "F-" + Take(if h2 == "" then "GEN" else h2, 8);
    var d1 := NatToString(s1);
    var d2 := NatToString(s2);
    var x := FolioNumber(h1, s1);
    SplitAtLastDash(p1, d1);
    SplitAtLastDash(p2, d2);
    assert x == p1 + "-" + d1 == p2 + "-" + d2;
    NatToStringInjective(s1, s2);
    assert p1[2..] == p2[2..];
  }

  /**
   * What a failed insert throws: `Falsy` is null, undefined, `false` or 0;
   * a thrown string is `Text`, the empty one included.
   */
  datatype Thrown = Falsy | Text(text: string) | ErrorInstance(message: string) | PlainObject(json: string)

  const UnknownError := "Error desconocido"

  /** `!err` */
  predicate IsFalsy(err: Thrown) {
    err.Falsy? || err == Text("")
  }

  /** The text a thrown value carries: the string, the `message`, or the object's JSON. */
  function Carried(err: Thrown): string {
    match err
    case Falsy => ""
    case Text(s) => s
    case ErrorInstance(m) => m
    case PlainObject(j) => j
  }

  /**
   * `buildErrorMessage`; `json` is the object's `JSON.stringify`. A falsy
   * value gives the fixed text; anything else gives the text it carries, so
   * the message is empty only for a truthy value that carries no text.
   */
  function BuildErrorMessage(err: Thrown): (r: string)
    ensures IsFalsy(err) ==> r == UnknownError
    ensures !IsFalsy(err) ==> r == Carried(err)
    ensures r == "" <==> !IsFalsy(err) && Carried(err) == ""
  {
    match err
    case Falsy => UnknownError
    case Text(s) => if s == "" then UnknownError else s
    case ErrorInstance(m) => m
    case PlainObject(j) => j
  }

  datatype SubmitFault = NoFault | FolioInsertFails(folioError: Thrown) | ItemsInsertFails(itemsError: Thrown)

  /** The tables a submission writes. */
  datatype Records = Records(folios: map<string, FolioRequest>, items: seq<ItemRow>, history: seq<FolioHistory>)

  /** The inserted header: `pendiente`, with the text fields trimmed where the source trims them. */
  function Header(user: User, form: FolioForm, id: string, folioNumber: string, now: string): FolioRequest
    requires AgeOk(form.patientAge)
  {
    FolioRequest(
      id, folioNumber, user.id, user.hospitalId, Pendiente, form.priority, form.notes, "", "", now, now,
      Trim(form.patientName), Some(ParseInt(form.patientAge).value), form.patientGender, Trim(form.patientNss),
      Trim(form.surgeryType), form.isEmergency, form.anesthesiaType, Trim(form.surgeonName),
      Trim(form.anesthesiologistName), form.procedureTime)
  }

  /** The `folio_items` rows: one per valid line, in order, with the entered quantity. */
  function ItemRows(folioId: string, valid: seq<FormLine>): (r: seq<ItemRow>)
    requires forall i :: 0 <= i < |valid| ==> IsValidLine(valid[i])
    ensures |r| == |valid|
    ensures forall i :: 0 <= i < |valid| ==> r[i] == RowOf(folioId, valid[i])
  {
    seq(|valid|, i requires 0 <= i < |valid| => RowOf(folioId, valid[i]))
  }

  /** The row of one valid line: its product and the entered quantity, nothing approved yet. */
  function RowOf(folioId: string, line: FormLine): (r: ItemRow)
    requires IsValidLine(line)
    ensures r.folioId == folioId && r.productId == line.productId && r.productId != ""
    ensures r.quantityRequested == line.quantity.value && r.quantityRequested > 0 && r.quantityApproved.None?
  {
    ItemRow(folioId, line.productId, line.quantity.value, None)
  }

  function CreatedEntry(folioId: string, userId: string): FolioHistory {
    FolioHistory(folioId, userId, "Folio creado", None, Some(Pendiente), None)
  }

  /** The dialog's error after a failed submission: a refused form, or a failed insert and what it threw. */
  datatype SubmitError = Refused(refusal: Refusal) | InsertFailed(thrown: Thrown)

  const InsertFailurePrefix := "Error al crear el folio: "

  /** The text `setError` shows for an error. */
  function ErrorMessage(e: SubmitError): string {
    match e
    case Refused(r) => RefusalMessage(r)
    case InsertFailed(err) => InsertFailurePrefix + BuildErrorMessage(err)
  }

  /**
   * A failed insert's message is the insert-failure prefix followed by
   * `buildErrorMessage` of what was thrown; it says nothing more than the
   * prefix only when a truthy value carrying no text was thrown.
   */
  lemma InsertFailureMessage(err: Thrown)
    ensures var m := ErrorMessage(InsertFailed(err));
      |m| >= |InsertFailurePrefix| && m[..|InsertFailurePrefix|] == InsertFailurePrefix
      && m[|InsertFailurePrefix|..] == BuildErrorMessage(err)
      && (|m| == |InsertFailurePrefix| <==> !IsFalsy(err) && Carried(err) == "")
  {
  }

  /** The tables after a successful submission: the header, its item rows and the creation entry. */
  function Created(t: Records, user: User, form: FolioForm, lines: seq<FormLine>, newFolioId: string,
                   stamp: nat, now: string): Records
    requires AgeOk(form.patientAge)
  {
    Records(t.folios[newFolioId := Header(user, form, newFolioId, FolioNumber(user.hospitalId, stamp), now)],
            t.items + ItemRows(newFolioId, ValidItems(lines)),
            t.history + [CreatedEntry(newFolioId, user.id)])
  }

  /**
   * `handleSubmit` on the tables: the error it sets (`None` on success)
   * and the tables afterwards. A refused form and a failed header insert
   * write nothing; a failed item insert leaves the header without items or
   * history.
   */
  function Submit(t: Records, user: User, form: FolioForm, lines: seq<FormLine>, newFolioId: string,
                  stamp: nat, now: string, fault: SubmitFault): (r: (Option<SubmitError>, Records))
    ensures ValidationError(user, form, lines).Some? ==> r == (Some(Refused(ValidationError(user, form, lines).value)), t)
    ensures r.0.None? <==> Acceptable(user, form, lines) && fault.NoFault?
    ensures fault.FolioInsertFails? ==> r.1 == t
  {
    var refusal := ValidationError(user, form, lines);
    if refusal.Some? then (Some(Refused(refusal.value)), t)
    else Inserts(t, user, form, lines, newFolioId, stamp, now, fault)
  }

  /** The inserts of an acceptable submission: header, then items and history, stopping at the failing one. */
  function Inserts(t: Records, user: User, form: FolioForm, lines: seq<FormLine>, newFolioId: string,
                   stamp: nat, now: string, fault: SubmitFault): (r: (Option<SubmitError>, Records))
    requires AgeOk(form.patientAge)
    ensures r.0.None? <==> fault.NoFault?
  {
    match fault
    case FolioInsertFails(e) => (Some(InsertFailed(e)), t)
    case ItemsInsertFails(e) =>
      var header := Header(user, form, newFolioId, FolioNumber(user.hospitalId, stamp), now);
      (Some(InsertFailed(e)), t.(folios := t.folios[newFolioId := header]))
    case NoFault => (None, Created(t, user, form, lines, newFolioId, stamp, now))
  }

  /** An acceptable form, with no insert failing, is submitted with no error and writes `Created`. */
  lemma SubmitSucceeds(t: Records, user: User, form: FolioForm, lines: seq<FormLine>, newFolioId: string,
                       stamp: nat, now: string)
    requires Acceptable(user, form, lines)
    ensures Submit(t, user, form, lines, newFolioId, stamp, now, NoFault) == (None, Created(t, user, form, lines, newFolioId, stamp, now))
  {
  }

  /**
   * A successful submission inserts a `pendiente` header for the user's
   * hospital with the folio number of `stamp` and a trimmed, non-empty
   * patient name and an age in [0, 120]; then one row per valid line, each
   * with a product and a positive quantity; then the "Folio creado" entry.
   */
  lemma CreatedRecords(t: Records, user: User, form: FolioForm, lines: seq<FormLine>, newFolioId: string,
                       stamp: nat, now: string)
    requires Acceptable(user, form, lines)
    ensures var after := Created(t, user, form, lines, newFolioId, stamp, now);
      var f := after.folios[newFolioId];
      after.folios == t.folios[newFolioId := f]
      && f.status == Pendiente && f.hospitalId == user.hospitalId && f.auxiliarId == user.id
      && f.folioNumber == FolioNumber(user.hospitalId, stamp)
      && f.patientName == Trim(form.patientName) && f.patientName != ""
      && f.patientAge.Some? && 0 <= f.patientAge.value <= 120
      && |after.items| == |t.items| + |ValidItems(lines)| && after.items[..|t.items|] == t.items
      && (forall i :: |t.items| <= i < |after.items| ==>
            after.items[i].folioId == newFolioId && after.items[i].productId != ""
            && after.items[i].quantityRequested > 0)
      && after.history == t.history + [CreatedEntry(newFolioId, user.id)]
  {
    var after := Created(t, user, form, lines, newFolioId, stamp, now);
    var rows := ItemRows(newFolioId, ValidItems(lines));
    assert after.items == t.items + rows;
    assert after.items[..|t.items|] == t.items;
    forall i | |t.items| <= i < |after.items|
      ensures after.items[i].folioId == newFolioId && after.items[i].productId != "" && after.items[i].quantityRequested > 0
    {
      assert after.items[i] == rows[i - |t.items|];
    }
  }

  /** When the item insert fails, the header stays behind without items or history. */
  lemma ItemsFailureLeavesHeader(t: Records, user: User, form: FolioForm, lines: seq<FormLine>, newFolioId: string,
                                 stamp: nat, now: string, e: Thrown)
    requires Acceptable(user, form, lines)
    ensures var (error, after) := Submit(t, user, form, lines, newFolioId, stamp, now, ItemsInsertFails(e));
      error == Some(InsertFailed(e))
      && newFolioId in after.folios && after.folios[newFolioId].status == Pendiente
      && after.items == t.items && after.history == t.history
  {
  }

  /**
   * The inserts of `handleSubmit`, once every check has passed: the header,
   * then the item rows, then the history row, stopping at the failing insert.
   */
  method InsertFolio(db: Database, user: User, form: FolioForm, lines: seq<FormLine>, newFolioId: string,
                     stamp: nat, now: string, fault: SubmitFault) returns (error: Option<SubmitError>)
    requires AgeOk(form.patientAge)
    modifies db`folios, db`folioItems, db`history
    ensures (error, Records(db.folios, db.folioItems, db.history))
            == Inserts(Records(old(db.folios), old(db.folioItems), old(db.history)),
                       user, form, lines, newFolioId, stamp, now, fault)
  {
    if fault.FolioInsertFails? {
      return Some(InsertFailed(fault.folioError));
    }
    var header := Header(user, form, newFolioId, FolioNumber(user.hospitalId, stamp), now);
    db.folios := db.folios[newFolioId := header];
    if fault.ItemsInsertFails? {
      return Some(InsertFailed(fault.itemsError));
    }
    db.folioItems := db.folioItems + ItemRows(newFolioId, ValidItems(lines));
    db.history := db.history + [CreatedEntry(newFolioId, user.id)];
    return None;
  }

  /** The dialog's fields as one value. */
  datatype DialogState = DialogState(form: FolioForm, lines: seq<FormLine>, error: Option<SubmitError>)

  /**
   * The dialog and the tables after `handleSubmit`: the error and the
   * tables are `Submit`'s; the form and the lines are reset on success and
   * kept, to be corrected, on failure.
   */
  function AfterSubmit(d: DialogState, t: Records, user: User, newFolioId: string, stamp: nat, now: string,
                       fault: SubmitFault): (r: (DialogState, Records))
    ensures (r.0.error, r.1) == Submit(t, user, d.form, d.lines, newFolioId, stamp, now, fault)
    ensures r.0.error.None? ==> r.0.form == EmptyForm && r.0.lines == [BlankLine]
    ensures r.0.error.Some? ==> r.0.form == d.form && r.0.lines == d.lines
  {
    var (error, t') := Submit(t, user, d.form, d.lines, newFolioId, stamp, now, fault);
    if error.None? then (DialogState(EmptyForm, [BlankLine], None), t')
    else (d.(error := error), t')
  }

  /**
   * The writes of `handleSubmit`: the checks in order, stopping at the first
   * one that fails, then the inserts.
   */
  method SubmitFolio(db: Database, user: User, form: FolioForm, lines: seq<FormLine>, newFolioId: string,
                     stamp: nat, now: string, fault: SubmitFault) returns (error: Option<SubmitError>)
    modifies db`folios, db`folioItems, db`history
    ensures (error, Records(db.folios, db.folioItems, db.history))
            == Submit(Records(old(db.folios), old(db.folioItems), old(db.history)),
                      user, form, lines, newFolioId, stamp, now, fault)
  {
    var refusal := ValidationError(user, form, lines);
    if refusal.Some? {
      return Some(Refused(refusal.value));
    }
    error := InsertFolio(db, user, form, lines, newFolioId, stamp, now, fault);
  }

  /** The dialog's state: its fields, its product lines and its error message. */
  class FolioDialog {
    var form: FolioForm
    var lines: seq<FormLine>
    var error: Option<SubmitError>

    constructor()
      ensures form == EmptyForm && lines == [BlankLine] && error == None
    {
      form := EmptyForm;
      lines := [BlankLine];
      error := None;
    }

    /** `handleAddItem`: a blank line is appended. */
    method HandleAddItem()
      modifies this
      ensures lines == old(lines) + [BlankLine]
      ensures form == old(form) && error == old(error)
    {
      lines := lines + [BlankLine];
    }

    /** `handleRemoveItem`: `splice(index, 1)` removes that line only, keeping the others in order. */
    method HandleRemoveItem(index: nat)
      modifies this
      ensures index < |old(lines)| ==> lines == old(lines)[..index] + old(lines)[index + 1..]
      ensures index >= |old(lines)| ==> lines == old(lines)
      ensures form == old(form) && error == old(error)
    {
      if index < |lines| {
        lines := lines[..index] + lines[index + 1..];
      }
    }

    /** The remove button is shown only while there is more than one line. */
    function CanRemove(): bool
      reads this
    {
      |lines| > 1
    }

    /**
     * `handleItemChange` for the product select: only that line's product
     * changes. An index past the end throws before the state is set.
     */
    method SetProduct(index: nat, productId: string)
      modifies this
      ensures |lines| == |old(lines)|
      ensures forall j :: 0 <= j < |lines| && j != index ==> lines[j] == old(lines)[j]
      ensures index < |lines| ==> lines[index] == old(lines)[index].(productId := productId)
      ensures form == old(form) && error == old(error)
    {
      if index < |lines| {
        lines := lines[index := lines[index].(productId := productId)];
      }
    }

    /** `handleItemChange` for the quantity input: only that line's quantity changes. */
    method SetQuantity(index: nat, quantity: Option<int>)
      modifies this
      ensures |lines| == |old(lines)|
      ensures forall j :: 0 <= j < |lines| && j != index ==> lines[j] == old(lines)[j]
      ensures index < |lines| ==> lines[index] == old(lines)[index].(quantity := quantity)
      ensures form == old(form) && error == old(error)
    {
      if index < |lines| {
        lines := lines[index := lines[index].(quantity := quantity)];
      }
    }

    /**
     * `handleSubmit`: the checks in order, then the inserts; on success the
     * form and the lines are reset, otherwise they are kept and the message shown.
     */
    method HandleSubmit(db: Database, user: User, newFolioId: string, stamp: nat, now: string, fault: SubmitFault)
      modifies this, db`folios, db`folioItems, db`history
      ensures (DialogState(form, lines, error), Records(db.folios, db.folioItems, db.history))
              == AfterSubmit(DialogState(old(form), old(lines), old(error)),
                             Records(old(db.folios), old(db.folioItems), old(db.history)),
                             user, newFolioId, stamp, now, fault)
    {
      var e := SubmitFolio(db, user, form, lines, newFolioId, stamp, now, fault);
      if e.None? {
        form := EmptyForm;
        lines := [BlankLine];
      }
      error := e;
    }
  }
}
