/** The Express server of server/index.js over its SQLite database: the parcel,
    request and document tables as in-memory tables keyed by id, the create and
    query handlers as functions from the tables and the request body to the
    HTTP reply, the counters of the statistics endpoints, and the schema
    bookkeeping of `ensureColumn`. */
module ParcelStore {
  import opened Text
  import opened Values
  import Monthly

  /** A value stored in an SQLite column. */
  datatype Cell = NullCell | TextCell(text: string) | RealCell(n: Num)

  /** A row of the `parcels` table as `SELECT *` returns it. The id, the
      reference and the two timestamps are what the handler computes itself;
      every other column holds what its value bound to. The columns are grouped
      as the steps of the registration form group them. */
  datatype Parcel = Parcel(
    id: string,
    reference: string,
    site: Site,
    status: Cell,
    landUse: Cell,
    title: Title,
    owner: Owner,
    survey: Survey,
    encumbrances: Encumbrances,
    createdAt: string,
    updatedAt: string)

  /** Where the parcel lies and how large it is. */
  datatype Site = Site(
    parcelNumber: Cell,
    province: Cell,
    territoryOrCity: Cell,
    communeOrSector: Cell,
    quartierOrCheflieu: Cell,
    avenue: Cell,
    gpsLat: Cell,
    gpsLong: Cell,
    area: Cell,
    location: Cell)

  /** The land title and how the parcel was acquired. */
  datatype Title = Title(
    certificateNumber: Cell,
    issuingAuthority: Cell,
    acquisitionType: Cell,
    acquisitionActRef: Cell,
    titleDate: Cell)

  datatype Owner = Owner(ownerName: Cell, ownerIdNumber: Cell, companyName: Cell, rccm: Cell, nif: Cell)

  /** The survey report and the cadastral plan. */
  datatype Survey = Survey(surveyingPvRef: Cell, surveyorName: Cell, surveyorLicense: Cell, cadastralPlanRef: Cell)

  datatype Encumbrances = Encumbrances(servitudes: Cell, charges: Cell, litigation: Cell)

  /** A row of the `requests` table. */
  datatype Request = Request(
    id: string,
    citizenName: Cell,
    parcelReference: Cell,
    documentType: Cell,
    status: Cell,
    createdAt: string,
    updatedAt: string)

  /** A row of the `documents` table; only `parcelId` is read by the core. */
  datatype Document = Document(id: string, parcelId: Option<string>, kind: string, filePath: string, createdAt: string)

  type Table = map<string, Parcel>
  type RequestTable = map<string, Request>
  type DocumentTable = map<string, Document>

  /** What a handler sends: a status code and a JSON row, or a status code
      and `{ error: message }`. */
  datatype HttpReply<T> = Success(status: int, value: T) | Failure(status: int, error: string)

  /** Every row is stored under its own id (the primary key). */
  predicate KeyedById(t: Table) {
    forall id :: id in t ==> t[id].id == id
  }

  /** The UNIQUE constraint on `reference`. */
  predicate UniqueReferences(t: Table) {
    forall i, j :: i in t && j in t && t[i].reference == t[j].reference ==> i == j
  }

  predicate WellFormed(t: Table) {
    KeyedById(t) && UniqueReferences(t)
  }

  predicate RequestsKeyedById(rt: RequestTable) {
    forall id :: id in rt ==> rt[id].id == id
  }

  // ---------------------------------------------------------------------------
  // Binding JavaScript values to statement parameters

  /** A number as SQLite stores it: NaN becomes NULL. */
  function NumCell(n: Num): Cell {
    if n == NaN then NullCell else RealCell(n)
  }

  /** A value taken as one `run` refuses: a boolean (a TypeError), or an
      object or array. An object argument is read as named parameters, which
      these statements do not have; an array argument is spread into the
      positional ones, which fails except when it holds exactly one bindable
      value, a case taken as refused here too. */
  predicate Unbindable(v: Value) {
    v.Bool? || v.Composite?
  }

  /** How better-sqlite3 binds any other value to a `?` parameter: a string
      as TEXT, a number as REAL, null and undefined as NULL. */
  function Bind(v: Value): (c: Cell)
    requires !Unbindable(v)
    ensures v.Str? ==> c == TextCell(v.s)
    ensures v.Number? ==> c == NumCell(v.n)
    ensures v.Null? || v.Undefined? ==> c == NullCell
  {
    match v
    case Undefined => NullCell
    case Null => NullCell
    case Str(s) => TextCell(s)
    case Number(n) => NumCell(n)
  }

  /** `run` throws for this parameter: a value that cannot be bound, or one
      that binds to NULL for a NOT NULL column. */
  predicate Rejected(v: Value, notNull: bool) {
    Unbindable(v) || (notNull && (v.Null? || v.Undefined? || v == Number(NaN)))
  }

  /** A bound value is a given text exactly when it was that string. */
  lemma BindIsText(v: Value, s: string)
    requires !Unbindable(v)
    ensures Bind(v) == TextCell(s) <==> v == Str(s)
  {
  }

  /** `v || null`. */
  function OrNull(v: Value): (w: Value)
    ensures Truthy(v) ==> w == v
    ensures !Truthy(v) ==> w == Null
  {
    if Truthy(v) then v else Null
  }

  // ---------------------------------------------------------------------------
  // POST /api/parcels

  /** The required keys of the create handler, in the order they are checked. */
  const ParcelRequired: seq<string> := [
    "parcel_number", "province", "territory_or_city", "commune_or_sector", "quartier_or_cheflieu", "avenue",
    "area", "status", "land_use", "acquisition_type",
    "acquisition_act_ref", "title_date", "owner_name", "owner_id_number", "surveying_pv_ref", "surveyor_name",
    "surveyor_license"
  ]

  /** The stored reference: the trimmed `reference` when it is a string that
      is not blank, otherwise `AUTO-` and the first eight characters of a
      fresh UUID. */
  function ReferenceFor(b: Obj, uuid: string): (r: string)
    ensures Get(b, "reference").Str? && !IsBlank(Get(b, "reference").s) ==> r == JsTrim(Get(b, "reference").s)
    ensures !(Get(b, "reference").Str? && !IsBlank(Get(b, "reference").s)) ==>
              r == "AUTO-" + uuid[..Min(8, |uuid|)] && (|uuid| >= 8 ==> |r| == 13)
    ensures !IsBlank(r)
  {
    var v := Get(b, "reference");
    if v.Str? && !IsBlank(v.s) then JsTrim(v.s)
    else
      var r := "AUTO-" + uuid[..Min(8, |uuid|)];
      assert r[0] == 'A' && 'A' !in JsWhitespace;
      r
  }

  /** `typeof v === 'number' ? v : 0`. */
  function NumberOr0(v: Value): Num {
    if v.Number? then v.n else Finite(0.0)
  }

  /** `typeof v === 'string' ? v : ''`. */
  function StringOrEmpty(v: Value): string {
    if v.Str? then v.s else ""
  }

  predicate ReferenceTaken(t: Table, ref: string) {
    exists id :: id in t && t[id].reference == ref
  }

  /** The row the insert stores (and `SELECT * ... WHERE id = ?` reads
      back), or `None` when `run` throws because a value cannot be bound or a
      NOT NULL column would receive NULL. The
      GPS fields default to 0 when not numbers, three text fields to the empty
      string when not strings, and the optional fields (`b.k || null`) to
      NULL when falsy. */
  function NewRow(b: Obj, ref: string, id: string, now: string): Option<Parcel> {
    var parcelNumber, province, territoryOrCity, communeOrSector, quartierOrCheflieu, avenue :=
      Get(b, "parcel_number"), Get(b, "province"), Get(b, "territory_or_city"), Get(b, "commune_or_sector"),
      Get(b, "quartier_or_cheflieu"), Get(b, "avenue");
    var area, location, status, landUse, acquisitionType, acquisitionActRef, titleDate :=
      Get(b, "area"), OrNull(Get(b, "location")), Get(b, "status"), Get(b, "land_use"),
      Get(b, "acquisition_type"), Get(b, "acquisition_act_ref"), Get(b, "title_date");
    var ownerName, ownerIdNumber, companyName, rccm, nif :=
      Get(b, "owner_name"), Get(b, "owner_id_number"), OrNull(Get(b, "company_name")), OrNull(Get(b, "rccm")),
      OrNull(Get(b, "nif"));
    var surveyingPvRef, surveyorName, surveyorLicense, servitudes, charges, litigation :=
      Get(b, "surveying_pv_ref"), Get(b, "surveyor_name"), Get(b, "surveyor_license"),
      OrNull(Get(b, "servitudes")), OrNull(Get(b, "charges")), OrNull(Get(b, "litigation"));
    var gpsLat, gpsLong := NumberOr0(Get(b, "gps_lat")), NumberOr0(Get(b, "gps_long"));
    if || Rejected(parcelNumber, true) || Rejected(province, true) || Rejected(territoryOrCity, true)
       || Rejected(communeOrSector, true) || Rejected(quartierOrCheflieu, true) || Rejected(avenue, true)
       || gpsLat == NaN || gpsLong == NaN
       || Rejected(area, true) || Rejected(location, false) || Rejected(status, true) || Rejected(landUse, true)
       || Rejected(acquisitionType, true) || Rejected(acquisitionActRef, true) || Rejected(titleDate, true)
       || Rejected(ownerName, true) || Rejected(ownerIdNumber, true) || Rejected(companyName, false)
       || Rejected(rccm, false) || Rejected(nif, false) || Rejected(surveyingPvRef, true)
       || Rejected(surveyorName, true) || Rejected(surveyorLicense, true) || Rejected(servitudes, false)
       || Rejected(charges, false) || Rejected(litigation, false)
    then None
    else
      var site := Site(Bind(parcelNumber), Bind(province), Bind(territoryOrCity), Bind(communeOrSector),
                       Bind(quartierOrCheflieu), Bind(avenue),
                       RealCell(gpsLat), RealCell(gpsLong),
                       Bind(area), Bind(location));
      var title := Title(TextCell(StringOrEmpty(Get(b, "certificate_number"))),
                         TextCell(StringOrEmpty(Get(b, "issuing_authority"))),
                         Bind(acquisitionType), Bind(acquisitionActRef), Bind(titleDate));
      var owner := Owner(Bind(ownerName), Bind(ownerIdNumber), Bind(companyName), Bind(rccm), Bind(nif));
      var survey := Survey(Bind(surveyingPvRef), Bind(surveyorName), Bind(surveyorLicense),
                           TextCell(StringOrEmpty(Get(b, "cadastral_plan_ref"))));
      Some(Parcel(id, ref, site, Bind(status), Bind(landUse), title, owner, survey,
                  Encumbrances(Bind(servitudes), Bind(charges), Bind(litigation)), now, now))
  }

  /** What the inserted row holds: the handler's own id, reference and
      timestamps (`created_at` equal to `updated_at`), the body's area, GPS
      values that default to 0 when not numbers, and certificate, authority
      and plan fields that default to the empty string when not strings. */
  lemma NewRowFields(b: Obj, ref: string, id: string, now: string)
    requires JsonObject(b) && Get(b, "area").Number? && NewRow(b, ref, id, now).Some?
    ensures var row := NewRow(b, ref, id, now).value;
            && row.id == id && row.reference == ref
            && row.createdAt == now && row.updatedAt == now
            && row.site.area == RealCell(Get(b, "area").n)
            && row.site.gpsLat == RealCell(NumberOr0(Get(b, "gps_lat")))
            && row.site.gpsLong == RealCell(NumberOr0(Get(b, "gps_long")))
            && row.title.certificateNumber == TextCell(StringOrEmpty(Get(b, "certificate_number")))
            && row.title.issuingAuthority == TextCell(StringOrEmpty(Get(b, "issuing_authority")))
            && row.survey.cadastralPlanRef == TextCell(StringOrEmpty(Get(b, "cadastral_plan_ref")))
            && row.status == Bind(Get(b, "status"))
  {
    assert "area" in b;
    assert NumberOr0(Get(b, "gps_lat")) != NaN && NumberOr0(Get(b, "gps_long")) != NaN;
  }

  /** The reply of the create handler for body `b`, with `uuid` the value of
      the first randomUUID() call (used only for an automatic reference), `id`
      the second and `now` the ISO timestamp. The checks run in the source's
      order: required fields, the type of `area`, binding, then the UNIQUE
      constraints on the id and on the reference (both give an error message
      that contains `UNIQUE`). */
  function CreateParcelReply(t: Table, b: Obj, uuid: string, id: string, now: string): (r: HttpReply<Parcel>)
    ensures FirstMissing(b, ParcelRequired).Some? ==>
              r == Failure(400, "Missing field: " + FirstMissing(b, ParcelRequired).value)
    ensures FirstMissing(b, ParcelRequired).None? && !Get(b, "area").Number? ==>
              r == Failure(400, "Invalid numeric fields")
    ensures r.Failure? ==> r.status in {400, 409, 500}
    ensures r.Failure? && r.status == 500 <==>
              && FirstMissing(b, ParcelRequired).None? && Get(b, "area").Number?
              && NewRow(b, ReferenceFor(b, uuid), id, now).None?
    ensures r.Failure? && r.status == 409 <==>
              && FirstMissing(b, ParcelRequired).None? && Get(b, "area").Number?
              && NewRow(b, ReferenceFor(b, uuid), id, now).Some?
              && (id in t || ReferenceTaken(t, ReferenceFor(b, uuid)))
    ensures r.Failure? && r.status == 409 ==> r.error == "Reference already exists"
    ensures r.Failure? && r.status == 500 ==> r.error == "Server error"
    ensures r.Success? ==>
              && r.status == 201
              && FirstMissing(b, ParcelRequired).None? && Get(b, "area").Number?
              && Some(r.value) == NewRow(b, ReferenceFor(b, uuid), id, now)
              && r.value.id == id && r.value.reference == ReferenceFor(b, uuid)
              && id !in t && !ReferenceTaken(t, r.value.reference)
    ensures && FirstMissing(b, ParcelRequired).None? && Get(b, "area").Number?
            && NewRow(b, ReferenceFor(b, uuid), id, now).Some?
            && id !in t && !ReferenceTaken(t, ReferenceFor(b, uuid)) ==>
              r == Success(201, NewRow(b, ReferenceFor(b, uuid), id, now).value)
  {
    var ref := ReferenceFor(b, uuid);
    var missing := FirstMissing(b, ParcelRequired);
    if missing.Some? then Failure(400, "Missing field: " + missing.value)
    else if !Get(b, "area").Number? then Failure(400, "Invalid numeric fields")
    else
      match NewRow(b, ref, id, now)
      case None => Failure(500, "Server error")
      case Some(row) =>
        if id in t || ReferenceTaken(t, ref) then Failure(409, "Reference already exists")
        else Success(201, row)
  }

  /** The columns the parcel INSERT names, in its order. */
  const InsertColumns: seq<string> := [
    "id", "reference", "parcel_number", "province", "territory_or_city", "commune_or_sector",
    "quartier_or_cheflieu", "avenue", "gps_lat", "gps_long", "area", "location", "status", "land_use",
    "certificate_number", "issuing_authority", "acquisition_type", "acquisition_act_ref", "title_date",
    "owner_name", "owner_id_number", "company_name", "rccm", "nif", "surveying_pv_ref", "surveyor_name",
    "surveyor_license", "cadastral_plan_ref", "servitudes", "charges", "litigation", "created_at", "updated_at"
  ]

  /** The `?` placeholders of that INSERT's VALUES list as written, and as
      many as it names columns. */
  const PlaceholdersAsWritten := 32
  const PlaceholdersIntended := 33

  /** SQLite prepares an INSERT with a column list only when its VALUES list
      has one value per column; otherwise `prepare` throws `N values for M
      columns`. */
  predicate Prepares(columns: seq<string>, placeholders: nat) {
    |columns| == placeholders
  }

  /** POST /api/parcels as written: the checks come first, then `prepare`
      throws, and since that message does not contain `UNIQUE` the catch
      answers 500. The last branch is the one a statement that prepares
      would reach; with 32 placeholders it is never taken, and it stands
      for the corrected handler. */
  function CreateParcelReplyAsWritten(t: Table, b: Obj, uuid: string, id: string, now: string): (r: HttpReply<Parcel>)
    ensures FirstMissing(b, ParcelRequired).Some? ==>
              r == Failure(400, "Missing field: " + FirstMissing(b, ParcelRequired).value)
    ensures FirstMissing(b, ParcelRequired).None? && !Get(b, "area").Number? ==>
              r == Failure(400, "Invalid numeric fields")
    ensures FirstMissing(b, ParcelRequired).None? && Get(b, "area").Number? ==>
              r == Failure(500, "Server error")
  {
    var missing := FirstMissing(b, ParcelRequired);
    if missing.Some? then Failure(400, "Missing field: " + missing.value)
    else if !Get(b, "area").Number? then Failure(400, "Invalid numeric fields")
    else if !Prepares(InsertColumns, PlaceholdersAsWritten) then Failure(500, "Server error")
    else CreateParcelReply(t, b, uuid, id, now)
  }

  /** As written, no request ever creates a parcel: every body that passes
      the checks, including each one the corrected handler stores, gets a 500
      and the table stays as it was. With one placeholder per column the
      statement prepares, which is what `CreateParcelReply` takes for
      granted. */
  lemma AsWrittenNeverCreates(t: Table, b: Obj, uuid: string, id: string, now: string)
    ensures CreateParcelReplyAsWritten(t, b, uuid, id, now).Failure?
    ensures CreateParcelReply(t, b, uuid, id, now).Success? ==>
              CreateParcelReplyAsWritten(t, b, uuid, id, now) == Failure(500, "Server error")
    ensures AfterCreate(t, CreateParcelReplyAsWritten(t, b, uuid, id, now)) == t
    ensures !Prepares(InsertColumns, PlaceholdersAsWritten) && Prepares(InsertColumns, PlaceholdersIntended)
  {
  }

  /** The handler of POST /api/parcels up to the insert: the required-field
      loop with its early return, the other checks, and the row to insert. */
  method CheckNewParcel(t: Table, b: Obj, uuid: string, id: string, now: string) returns (reply: HttpReply<Parcel>)
    ensures reply == CreateParcelReply(t, b, uuid, id, now)
    ensures reply.Success? ==> reply.value.id == id && id !in t && !ReferenceTaken(t, reply.value.reference)
  {
    var ref := ReferenceFor(b, uuid);
    var missing := FindMissing(b, ParcelRequired);
    if missing.Some? {
      return Failure(400, "Missing field: " + missing.value);
    }
    if !Get(b, "area").Number? {
      return Failure(400, "Invalid numeric fields");
    }
    var row := NewRow(b, ref, id, now);
    if row.None? {
      return Failure(500, "Server error");
    }
    if id in t || ReferenceTaken(t, ref) {
      return Failure(409, "Reference already exists");
    }
    reply := Success(201, row.value);
  }

  /** The table after a create: the new row when the reply is a success, the
      old table otherwise. */
  function AfterCreate(t: Table, r: HttpReply<Parcel>): Table {
    if r.Success? then t[r.value.id := r.value] else t
  }

  lemma AfterCreateKeepsWellFormed(t: Table, r: HttpReply<Parcel>)
    requires WellFormed(t)
    requires r.Success? ==> r.value.id !in t && !ReferenceTaken(t, r.value.reference)
    ensures WellFormed(AfterCreate(t, r))
  {
    if r.Success? {
      InsertKeepsWellFormed(t, r.value);
    }
  }

  /** A successful create keeps the id key and the UNIQUE constraint, and adds
      exactly one row. */
  lemma CreateKeepsWellFormed(t: Table, b: Obj, uuid: string, id: string, now: string)
    requires WellFormed(t)
    ensures var r := CreateParcelReply(t, b, uuid, id, now);
            WellFormed(AfterCreate(t, r)) &&
            (r.Success? ==> AfterCreate(t, r).Keys == t.Keys + {id} && |AfterCreate(t, r)| == |t| + 1) &&
            (r.Failure? ==> AfterCreate(t, r) == t)
  {
    var r := CreateParcelReply(t, b, uuid, id, now);
    if r.Success? {
      InsertKeepsWellFormed(t, r.value);
    }
  }

  /** Inserting a row under a fresh id and a fresh reference keeps the table
      well formed and adds exactly that key. */
  lemma InsertKeepsWellFormed(t: Table, row: Parcel)
    requires WellFormed(t) && row.id !in t && !ReferenceTaken(t, row.reference)
    ensures WellFormed(t[row.id := row])
    ensures t[row.id := row].Keys == t.Keys + {row.id} && |t[row.id := row]| == |t| + 1
  {
    assert forall k :: k in t ==> t[k].reference != row.reference;
  }

  // ---------------------------------------------------------------------------
  // GET /api/parcels/:reference and GET /api/parcels

  /** `SELECT * FROM parcels WHERE reference = ?`: the row with that reference,
      or 404. */
  function FindByReference(t: Table, ref: string): (r: HttpReply<Parcel>)
    requires UniqueReferences(t)
    ensures r.Success? ==> r.status == 200 && r.value in t.Values && r.value.reference == ref
    ensures r.Failure? <==> !ReferenceTaken(t, ref)
    ensures r.Failure? ==> r == Failure(404, "Not found")
  {
    if ReferenceTaken(t, ref) then
      var id :| id in t && t[id].reference == ref;
      Success(200, t[id])
    else Failure(404, "Not found")
  }

  /** A parcel just created is found again under its reference. */
  lemma CreateThenFind(t: Table, b: Obj, uuid: string, id: string, now: string)
    requires WellFormed(t)
    requires CreateParcelReply(t, b, uuid, id, now).Success?
    ensures var r := CreateParcelReply(t, b, uuid, id, now);
            var t' := AfterCreate(t, r);
            UniqueReferences(t') && FindByReference(t', ReferenceFor(b, uuid)) == Success(200, r.value)
  {
    var r := CreateParcelReply(t, b, uuid, id, now);
    var t' := AfterCreate(t, r);
    CreateKeepsWellFormed(t, b, uuid, id, now);
    assert t'[id].reference == ReferenceFor(b, uuid);
    var found := FindByReference(t', ReferenceFor(b, uuid));
    var k :| k in t' && t'[k] == found.value;
    assert k == id;
  }

  /** A reference the client typed (a non-blank string) is stored trimmed;
      sending that stored reference again, in any body, yields the same
      reference, whatever the fresh UUID. */
  lemma ResubmittedReference(b: Obj, uuid: string, b2: Obj, uuid2: string)
    requires Get(b, "reference").Str? && !IsBlank(Get(b, "reference").s)
    requires Get(b2, "reference") == Str(ReferenceFor(b, uuid))
    ensures ReferenceFor(b2, uuid2) == ReferenceFor(b, uuid)
  {
    JsTrimStable(Get(b, "reference").s);
  }

  /** After a successful create its reference is taken. */
  lemma CreateTakesReference(t: Table, b: Obj, uuid: string, id: string, now: string)
    requires CreateParcelReply(t, b, uuid, id, now).Success?
    ensures ReferenceTaken(AfterCreate(t, CreateParcelReply(t, b, uuid, id, now)), ReferenceFor(b, uuid))
  {
    var r := CreateParcelReply(t, b, uuid, id, now);
    assert AfterCreate(t, r)[id].reference == ReferenceFor(b, uuid);
  }

  /** A body that passes the checks but whose reference is taken gets 409,
      and `AfterCreate` then leaves the table as it is. With
      `CreateTakesReference` and `ResubmittedReference`: once a create has
      succeeded, sending its reference again is refused. */
  lemma TakenReferenceConflicts(t: Table, b: Obj, uuid: string, id: string, now: string)
    requires ReferenceTaken(t, ReferenceFor(b, uuid))
    requires FirstMissing(b, ParcelRequired).None? && Get(b, "area").Number?
    requires NewRow(b, ReferenceFor(b, uuid), id, now).Some?
    ensures CreateParcelReply(t, b, uuid, id, now) == Failure(409, "Reference already exists")
  {
  }

  /** The query-string filter applies when `status` is given, not empty and
      not `all`. */
  predicate Filters(status: Option<string>) {
    status.Some? && status.value != "" && status.value != "all"
  }

  /** The rows GET /api/parcels returns, keyed by id (their order, by
      creation date, is not modelled). */
  function ListParcels(t: Table, status: Option<string>): (r: Table)
    ensures r.Keys <= t.Keys
    ensures forall id :: id in r ==> r[id] == t[id]
    ensures Filters(status) ==> forall id :: id in t ==> (id in r <==> t[id].status == TextCell(status.value))
    ensures !Filters(status) ==> r == t
  {
    if Filters(status) then map id | id in t && t[id].status == TextCell(status.value) :: t[id]
    else t
  }

  // ---------------------------------------------------------------------------
  // POST /api/requests

  /** The reply of the request handler for body `b`, with `id` the fresh UUID
      and `now` the timestamp. Any falsy required value is refused; a missing
      or falsy status becomes `En attente`. A value that cannot be bound and an
      id that is already taken both end in the catch-all 500. */
  function CreateRequestReply(rt: RequestTable, b: Obj, id: string, now: string): (r: HttpReply<Request>)
    ensures (!Truthy(Get(b, "citizen_name")) || !Truthy(Get(b, "parcel_reference")) ||
             !Truthy(Get(b, "document_type"))) ==> r == Failure(400, "Invalid payload")
    ensures r.Failure? && r.status == 400 ==>
              !Truthy(Get(b, "citizen_name")) || !Truthy(Get(b, "parcel_reference")) || !Truthy(Get(b, "document_type"))
    ensures r.Failure? ==> r.status in {400, 500}
    ensures r.Failure? && r.status == 500 <==>
              && Truthy(Get(b, "citizen_name")) && Truthy(Get(b, "parcel_reference")) && Truthy(Get(b, "document_type"))
              && (Unbindable(Get(b, "citizen_name")) || Unbindable(Get(b, "parcel_reference")) ||
                  Unbindable(Get(b, "document_type")) || (Truthy(Get(b, "status")) && Unbindable(Get(b, "status"))) ||
                  id in rt)
    ensures r.Failure? && r.status == 500 ==> r.error == "Server error"
    ensures r.Success? ==>
              && r.status == 201 && id !in rt
              && r.value.id == id && r.value.createdAt == now && r.value.updatedAt == now
              && r.value.citizenName == Bind(Get(b, "citizen_name"))
              && r.value.parcelReference == Bind(Get(b, "parcel_reference"))
              && r.value.documentType == Bind(Get(b, "document_type"))
              && (!Truthy(Get(b, "status")) ==> r.value.status == TextCell("En attente"))
              && (Truthy(Get(b, "status")) ==> r.value.status == Bind(Get(b, "status")))
    ensures && Truthy(Get(b, "citizen_name")) && Truthy(Get(b, "parcel_reference")) && Truthy(Get(b, "document_type"))
            && !Unbindable(Get(b, "citizen_name")) && !Unbindable(Get(b, "parcel_reference"))
            && !Unbindable(Get(b, "document_type")) && !(Truthy(Get(b, "status")) && Unbindable(Get(b, "status")))
            && id !in rt ==>
              r.Success?
  {
    var name, ref, kind, status := Get(b, "citizen_name"), Get(b, "parcel_reference"), Get(b, "document_type"), Get(b, "status");
    if !Truthy(name) || !Truthy(ref) || !Truthy(kind) then Failure(400, "Invalid payload")
    else
      var statusValue := if Truthy(status) then status else Str("En attente");
      if Unbindable(name) || Unbindable(ref) || Unbindable(kind) || Unbindable(statusValue) || id in rt then
        Failure(500, "Server error")
      else
        Success(201, Request(id, Bind(name), Bind(ref), Bind(kind), Bind(statusValue), now, now))
  }

  function AfterRequest(rt: RequestTable, r: HttpReply<Request>): RequestTable {
    if r.Success? then rt[r.value.id := r.value] else rt
  }

  // ---------------------------------------------------------------------------
  // The counters of /api/stats and /api/stats/extended

  /** The ids of the rows that satisfy a WHERE clause. */
  function IdsWhere(t: Table, p: Parcel -> bool): (ids: set<string>)
    ensures ids <= t.Keys
  {
    set id | id in t && p(t[id])
  }

  predicate IsFree(p: Parcel) { p.status == TextCell("Libre") }
  predicate IsDisputed(p: Parcel) { p.status == TextCell("En litige") }
  predicate IsMortgaged(p: Parcel) { p.status == TextCell("Hypothéqué") }

  /** `certificate_number = '' OR issuing_authority = '' OR cadastral_plan_ref = ''`. */
  predicate InValidation(p: Parcel) {
    p.title.certificateNumber == TextCell("") || p.title.issuingAuthority == TextCell("") ||
    p.survey.cadastralPlanRef == TextCell("")
  }

  /** `status = 'En litige' OR (litigation IS NOT NULL AND TRIM(litigation) <> '')`;
      SQLite's TRIM removes spaces only, and a REAL is never blank. */
  predicate BoundaryConflict(p: Parcel) {
    var l := p.encumbrances.litigation;
    IsDisputed(p) || l.RealCell? || (l.TextCell? && Trim(l.text, SqlSpace) != "")
  }

  predicate HasDocument(docs: DocumentTable, id: string) {
    exists k :: k in docs && docs[k].parcelId == Some(id)
  }

  /** `LEFT JOIN documents d ON d.parcel_id = p.id WHERE d.id IS NULL`: the
      parcels no document points at. */
  function MissingDocs(t: Table, docs: DocumentTable): (n: nat)
    ensures n <= |t|
  {
    var ids := set id | id in t && !HasDocument(docs, id);
    SubsetCard(ids, t.Keys);
    |ids|
  }

  function PendingRequests(rt: RequestTable): (n: nat)
    ensures n <= |rt|
  {
    var ids := set id | id in rt && rt[id].status == TextCell("En attente");
    SubsetCard(ids, rt.Keys);
    |ids|
  }

  lemma SubsetCard<T>(a: set<T>, b: set<T>)
    requires a <= b
    ensures |a| <= |b|
  {
    assert b == a + (b - a);
  }

  datatype Stats = Stats(totalParcels: nat, freeParcels: nat, disputedParcels: nat, mortgagedParcels: nat,
                         pendingRequests: nat)

  /** The reply of GET /api/stats. The three status counts are of disjoint
      sets of rows, so together they never exceed the total. */
  function StatsOf(t: Table, rt: RequestTable): (s: Stats)
    ensures s.freeParcels + s.disputedParcels + s.mortgagedParcels <= s.totalParcels
    ensures s.pendingRequests <= |rt|
    ensures s.totalParcels == |t| && s.pendingRequests == PendingRequests(rt)
  {
    var free, disputed, mortgaged := IdsWhere(t, IsFree), IdsWhere(t, IsDisputed), IdsWhere(t, IsMortgaged);
    assert free * disputed == {} && free * mortgaged == {} && disputed * mortgaged == {};
    SubsetCard(free + disputed + mortgaged, t.Keys);
    Stats(|t|, |free|, |disputed|, |mortgaged|, PendingRequests(rt))
  }

  /** Every disputed parcel is a boundary conflict. */
  lemma DisputedAreConflicts(t: Table)
    ensures |IdsWhere(t, IsDisputed)| <= |IdsWhere(t, BoundaryConflict)|
  {
    SubsetCard(IdsWhere(t, IsDisputed), IdsWhere(t, BoundaryConflict));
  }

  /** Filtering the list by a status gives as many rows as the counter of
      that status. */
  lemma ListingMatchesCounters(t: Table, rt: RequestTable)
    ensures |ListParcels(t, Some("Libre"))| == StatsOf(t, rt).freeParcels
    ensures |ListParcels(t, Some("En litige"))| == StatsOf(t, rt).disputedParcels
    ensures |ListParcels(t, Some("Hypothéqué"))| == StatsOf(t, rt).mortgagedParcels
    ensures |ListParcels(t, Some("all"))| == |ListParcels(t, None)| == StatsOf(t, rt).totalParcels
  {
    assert ListParcels(t, Some("Libre")).Keys == IdsWhere(t, IsFree);
    assert ListParcels(t, Some("En litige")).Keys == IdsWhere(t, IsDisputed);
    assert ListParcels(t, Some("Hypothéqué")).Keys == IdsWhere(t, IsMortgaged);
  }

  /** Adding a row under a fresh id adds one to exactly the counters whose
      WHERE clause the row satisfies. */
  lemma {:induction false} CountAfterInsert(t: Table, id: string, row: Parcel, p: Parcel -> bool)
    requires id !in t
    ensures |IdsWhere(t[id := row], p)| == |IdsWhere(t, p)| + (if p(row) then 1 else 0)
  {
    if p(row) {
      assert IdsWhere(t[id := row], p) == IdsWhere(t, p) + {id};
    } else {
      assert IdsWhere(t[id := row], p) == IdsWhere(t, p);
    }
  }

  /** A parcel inserted under a fresh id that no document points at adds one
      to the missing-documents counter. */
  lemma InsertCountsMissingDocs(t: Table, docs: DocumentTable, row: Parcel)
    requires row.id !in t && !HasDocument(docs, row.id)
    ensures MissingDocs(t[row.id := row], docs) == MissingDocs(t, docs) + 1
  {
    var before := set k | k in t && !HasDocument(docs, k);
    var after := set k | k in t[row.id := row] && !HasDocument(docs, k);
    assert after == before + {row.id};
  }

  /** A created parcel is counted as in validation exactly when its body's
      certificate number, issuing authority or plan reference is empty or not
      a string (both are stored as `''`), and one with no document is
      counted as missing documents. */
  lemma CreateUpdatesCounters(t: Table, docs: DocumentTable, b: Obj, uuid: string, id: string, now: string)
    requires JsonObject(b) && CreateParcelReply(t, b, uuid, id, now).Success?
    requires !HasDocument(docs, id)
    ensures var t' := AfterCreate(t, CreateParcelReply(t, b, uuid, id, now));
            && MissingDocs(t', docs) == MissingDocs(t, docs) + 1
            && |IdsWhere(t', InValidation)| ==
                 |IdsWhere(t, InValidation)| +
                 (if StringOrEmpty(Get(b, "certificate_number")) == "" ||
                     StringOrEmpty(Get(b, "issuing_authority")) == "" ||
                     StringOrEmpty(Get(b, "cadastral_plan_ref")) == "" then 1 else 0)
  {
    var row := CreateParcelReply(t, b, uuid, id, now).value;
    NewRowFields(b, ReferenceFor(b, uuid), id, now);
    CountAfterInsert(t, id, row, InValidation);
    InsertCountsMissingDocs(t, docs, row);
  }

  /** A parcel inserted under a fresh id is counted in the total and under
      its status. */
  lemma InsertUpdatesStats(t: Table, rt: RequestTable, row: Parcel)
    requires row.id !in t
    ensures var s, s' := StatsOf(t, rt), StatsOf(t[row.id := row], rt);
            && s'.totalParcels == s.totalParcels + 1
            && s'.freeParcels == s.freeParcels + (if IsFree(row) then 1 else 0)
            && s'.disputedParcels == s.disputedParcels + (if IsDisputed(row) then 1 else 0)
            && s'.mortgagedParcels == s.mortgagedParcels + (if IsMortgaged(row) then 1 else 0)
            && s'.pendingRequests == s.pendingRequests
  {
    CountAfterInsert(t, row.id, row, IsFree);
    CountAfterInsert(t, row.id, row, IsDisputed);
    CountAfterInsert(t, row.id, row, IsMortgaged);
  }

  /** A created parcel is counted under the status the body gave. */
  lemma CreateUpdatesStats(t: Table, rt: RequestTable, b: Obj, uuid: string, id: string, now: string)
    requires JsonObject(b) && CreateParcelReply(t, b, uuid, id, now).Success?
    ensures var s, s' := StatsOf(t, rt), StatsOf(AfterCreate(t, CreateParcelReply(t, b, uuid, id, now)), rt);
            && s'.totalParcels == s.totalParcels + 1
            && s'.freeParcels == s.freeParcels + (if Get(b, "status") == Str("Libre") then 1 else 0)
            && s'.disputedParcels == s.disputedParcels + (if Get(b, "status") == Str("En litige") then 1 else 0)
            && s'.mortgagedParcels == s.mortgagedParcels + (if Get(b, "status") == Str("Hypothéqué") then 1 else 0)
            && s'.pendingRequests == s.pendingRequests
  {
    var row := CreateParcelReply(t, b, uuid, id, now).value;
    NewRowFields(b, ReferenceFor(b, uuid), id, now);
    var v := Get(b, "status");
    assert row.status == Bind(v);
    BindIsText(v, "Libre");
    BindIsText(v, "En litige");
    BindIsText(v, "Hypothéqué");
    InsertUpdatesStats(t, rt, row);
  }

  /** A request stored under a fresh id adds one to the pending counter
      exactly when its status is `En attente`. */
  lemma InsertCountsPending(rt: RequestTable, req: Request)
    requires req.id !in rt
    ensures PendingRequests(rt[req.id := req]) ==
              PendingRequests(rt) + (if req.status == TextCell("En attente") then 1 else 0)
  {
    var before := set k | k in rt && rt[k].status == TextCell("En attente");
    var rt' := rt[req.id := req];
    var after := set k | k in rt' && rt'[k].status == TextCell("En attente");
    if req.status == TextCell("En attente") {
      assert after == before + {req.id};
    } else {
      assert after == before;
    }
  }

  /** A request created without a status, or with status `En attente`, is
      counted as pending; any other created request is not. */
  lemma CreateRequestCountsPending(rt: RequestTable, b: Obj, id: string, now: string)
    requires CreateRequestReply(rt, b, id, now).Success?
    ensures PendingRequests(AfterRequest(rt, CreateRequestReply(rt, b, id, now))) ==
              PendingRequests(rt) + (if !Truthy(Get(b, "status")) || Get(b, "status") == Str("En attente") then 1 else 0)
  {
    var r := CreateRequestReply(rt, b, id, now);
    if Truthy(Get(b, "status")) {
      BindIsText(Get(b, "status"), "En attente");
    }
    InsertCountsPending(rt, r.value);
  }

  /** The counters of /api/stats/extended that the model covers. */
  datatype ExtendedStats = ExtendedStats(
    parcelsMissingDocs: nat,
    parcelsInValidation: nat,
    parcelsBoundaryConflicts: nat,
    monthlyEvolution: seq<Monthly.MonthCount>)

  // ---------------------------------------------------------------------------
  // Schema bookkeeping

  predicate NoDuplicates(cols: seq<string>) {
    forall i, j :: 0 <= i < j < |cols| ==> cols[i] != cols[j]
  }

  /** The column list after `ensureColumn(name, ...)`: unchanged when the name
      is already there, extended by it otherwise. */
  function WithColumn(cols: seq<string>, name: string): (r: seq<string>)
    ensures name in r
    ensures forall c :: c in cols ==> c in r
    ensures forall c :: c in r ==> c in cols || c == name
    ensures |cols| <= |r| && r[..|cols|] == cols
    ensures name in cols ==> r == cols
    ensures NoDuplicates(cols) ==> NoDuplicates(r)
  {
    if name in cols then cols else cols + [name]
  }

  /** The column list after `ensureColumn` has been called with each name of
      `names` in turn. */
  function WithColumns(cols: seq<string>, names: seq<string>): seq<string>
    decreases |names|
  {
    if names == [] then cols else WithColumn(WithColumns(cols, names[..|names| - 1]), names[|names| - 1])
  }

  /** After the calls, every name is a column, the old columns keep their
      places, and no column appears twice if none did before. */
  lemma {:induction false} WithColumnsGrows(cols: seq<string>, names: seq<string>)
    ensures forall c :: c in names ==> c in WithColumns(cols, names)
    ensures forall c :: c in WithColumns(cols, names) ==> c in cols || c in names
    ensures |cols| <= |WithColumns(cols, names)| && WithColumns(cols, names)[..|cols|] == cols
    ensures NoDuplicates(cols) ==> NoDuplicates(WithColumns(cols, names))
    decreases |names|
  {
    if names != [] {
      var init := names[..|names| - 1];
      WithColumnsGrows(cols, init);
      assert forall c :: c in names ==> c in init || c == names[|names| - 1];
      var mid := WithColumns(cols, init);
      assert WithColumns(cols, names)[..|mid|] == mid;
      assert WithColumns(cols, names)[..|mid|][..|cols|] == WithColumns(cols, names)[..|cols|];
    }
  }

  /** Calls for names that are all columns already change nothing. */
  lemma {:induction false} WithColumnsPresent(cols: seq<string>, names: seq<string>)
    requires forall c :: c in names ==> c in cols
    ensures WithColumns(cols, names) == cols
    decreases |names|
  {
    if names != [] {
      var init := names[..|names| - 1];
      assert forall c :: c in init ==> c in names;
      WithColumnsPresent(cols, init);
      assert names[|names| - 1] in names;
    }
  }

  /** Running the start-up migration a second time changes nothing. */
  lemma MigrationIdempotent(cols: seq<string>)
    ensures WithColumns(WithColumns(cols, MigratedColumns), MigratedColumns) == WithColumns(cols, MigratedColumns)
  {
    WithColumnsGrows(cols, MigratedColumns);
    WithColumnsPresent(WithColumns(cols, MigratedColumns), MigratedColumns);
  }

  /** The columns the server adds to a database created by an older version,
      in the order of the `ensureColumn` calls. */
  const MigratedColumns: seq<string> := [
    "parcel_number", "province", "territory_or_city", "commune_or_sector", "quartier_or_cheflieu", "avenue",
    "gps_lat", "gps_long", "land_use", "certificate_number", "issuing_authority", "acquisition_type",
    "acquisition_act_ref", "title_date", "owner_id_number", "company_name", "rccm", "nif", "surveying_pv_ref",
    "surveyor_name", "surveyor_license", "cadastral_plan_ref", "servitudes", "charges", "litigation"
  ]

  /** The database behind the server, with `parcelColumns`, the column list
      read from `PRAGMA table_info(parcels)` at start-up. */
  class Store {
    var columns: seq<string>
    var parcels: Table
    var requests: RequestTable
    var documents: DocumentTable

    predicate Valid()
      reads this
    {
      NoDuplicates(columns) && WellFormed(parcels) && RequestsKeyedById(requests)
    }

    constructor (columns0: seq<string>, parcels0: Table, requests0: RequestTable, documents0: DocumentTable)
      requires NoDuplicates(columns0) && WellFormed(parcels0) && RequestsKeyedById(requests0)
      ensures Valid()
      ensures columns == columns0 && parcels == parcels0 && requests == requests0 && documents == documents0
    {
      columns, parcels, requests, documents := columns0, parcels0, requests0, documents0;
    }

    /** `ensureColumn(name, ddl)`: the ALTER TABLE itself is not modelled. */
    method EnsureColumn(name: string)
      requires Valid()
      modifies this
      ensures Valid()
      ensures columns == WithColumn(old(columns), name)
      ensures parcels == old(parcels) && requests == old(requests) && documents == old(documents)
    {
      if name !in columns {
        columns := columns + [name];
      }
    }

    /** The twenty-five `ensureColumn` calls run at start-up, one per name of
        `MigratedColumns` and in that order. */
    method Migrate()
      requires Valid()
      modifies this
      ensures Valid()
      ensures columns == WithColumns(old(columns), MigratedColumns)
      ensures parcels == old(parcels) && requests == old(requests) && documents == old(documents)
    {
      for i := 0 to |MigratedColumns|
        invariant Valid()
        invariant columns == WithColumns(old(columns), MigratedColumns[..i])
        invariant parcels == old(parcels) && requests == old(requests) && documents == old(documents)
      {
        assert MigratedColumns[..i + 1][..i] == MigratedColumns[..i];
        EnsureColumn(MigratedColumns[i]);
      }
      assert MigratedColumns[..|MigratedColumns|] == MigratedColumns;
    }

    /** POST /api/parcels: the checks, then the insert. */
    method CreateParcel(b: Obj, uuid: string, id: string, now: string) returns (reply: HttpReply<Parcel>)
      requires Valid()
      modifies this
      ensures Valid()
      ensures reply == CreateParcelReply(old(parcels), b, uuid, id, now)
      ensures parcels == AfterCreate(old(parcels), reply)
      ensures columns == old(columns) && requests == old(requests) && documents == old(documents)
    {
      reply := CheckNewParcel(parcels, b, uuid, id, now);
      AfterCreateKeepsWellFormed(parcels, reply);
      parcels := AfterCreate(parcels, reply);
    }

    /** POST /api/requests. */
    method CreateRequest(b: Obj, id: string, now: string) returns (reply: HttpReply<Request>)
      requires Valid()
      modifies this
      ensures Valid()
      ensures reply == CreateRequestReply(old(requests), b, id, now)
      ensures requests == AfterRequest(old(requests), reply)
      ensures columns == old(columns) && parcels == old(parcels) && documents == old(documents)
    {
      reply := CreateRequestReply(requests, b, id, now);
      if reply.Success? {
        requests := requests[id := reply.value];
      }
    }

    /** The part of GET /api/stats/extended the model covers, with the
        current year and month index and the rows of the per-month query as
        inputs. */
    method Extended(nowYear: int, nowMonth: int, rowsMonthly: seq<Monthly.MonthRow>) returns (s: ExtendedStats)
      ensures s.parcelsMissingDocs == MissingDocs(parcels, documents) <= |parcels|
      ensures s.parcelsInValidation == |IdsWhere(parcels, InValidation)| <= |parcels|
      ensures s.parcelsBoundaryConflicts == |IdsWhere(parcels, BoundaryConflict)|
      ensures s.parcelsBoundaryConflicts >= |IdsWhere(parcels, IsDisputed)|
      ensures |s.monthlyEvolution| == 12
      ensures forall j :: 0 <= j < 12 ==> s.monthlyEvolution[j] == Monthly.EntryFor(nowYear, nowMonth, rowsMonthly, 11 - j)
    {
      var evo := Monthly.MonthlyEvolution(nowYear, nowMonth, rowsMonthly);
      SubsetCard(IdsWhere(parcels, InValidation), parcels.Keys);
      DisputedAreConflicts(parcels);
      s := ExtendedStats(MissingDocs(parcels, documents), |IdsWhere(parcels, InValidation)|,
                         |IdsWhere(parcels, BoundaryConflict)|, evo);
    }
  }
}
