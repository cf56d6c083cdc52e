/**
 * The citizen-facing FIR endpoints (backend/routes/firRoutes.js): create, list one's own
 * reports, read one report with an ownership check, and the public search by FIR number.
 * The requester's id is what `protect` put in `req.user._id`.
 */
module FirRoutes {
  import opened Wrappers
  import opened Http
  import opened Mongo
  import opened FirModel

  /** The fields of `req.body` the create handler reads; an absent key is `None`. */
  datatype FirBody = FirBody(
    firNumber: Option<string>,
    complainantName: Option<string>,
    complainantPhone: Option<string>,
    incidentType: Option<string>,
    incidentDate: Option<string>,
    incidentLocation: Option<string>,
    description: Option<string>,
    accusedName: Option<string>)

  /** The report fields of a JSON request body; a missing key reads as `undefined`. */
  function FirBodyOf(json: map<string, string>): FirBody {
    FirBody(Lookup(json, "firNumber"), Lookup(json, "complainantName"), Lookup(json, "complainantPhone"),
      Lookup(json, "incidentType"), Lookup(json, "incidentDate"), Lookup(json, "incidentLocation"),
      Lookup(json, "description"), Lookup(json, "accusedName"))
  }

  /** The seven fields whose absence or emptiness the handler rejects up front. */
  predicate RequiredPresent(b: FirBody) {
    && Truthy(b.firNumber) && Truthy(b.complainantName) && Truthy(b.complainantPhone)
    && Truthy(b.incidentType) && Truthy(b.incidentDate) && Truthy(b.incidentLocation)
    && Truthy(b.description)
  }

  const AccusedDefault: string := "Unknown"

  /** The object passed to `new FIR({...})`: the body, the accused-name default, status 'Filed', and the owner. */
  function NewFirInput(b: FirBody, requester: UserId): (input: FirInput)
    ensures input.status == Some(DefaultStatus) && input.user == requester
    ensures input.accusedName == Some(OrDefault(b.accusedName, AccusedDefault))
  {
    FirInput(b.firNumber, b.complainantName, b.complainantPhone, b.incidentType, b.incidentDate,
      b.incidentLocation, b.description, Some(OrDefault(b.accusedName, AccusedDefault)),
      Some(DefaultStatus), requester)
  }

  /**
   * POST `/`: reject a body missing a required field, then a number already in use; otherwise
   * store exactly one new report, owned by the requester, with status 'Filed', no history,
   * and the accused name given or 'Unknown'.
   */
  method Create(store: FirCollection, requester: UserId, body: FirBody, now: nat) returns (r: Result<Fir>)
    requires store.Valid()
    modifies store
    ensures store.Valid()
    ensures !RequiredPresent(body) ==>
      r == Err(BadRequest("All required fields must be provided")) && store.firs == old(store.firs)
    ensures RequiredPresent(body) && FindByNumber(old(store.firs), body.firNumber.value).Some? ==>
      r == Err(BadRequest("FIR with this number already exists")) && store.firs == old(store.firs)
    ensures RequiredPresent(body) && FindByNumber(old(store.firs), body.firNumber.value).None? ==> r.Ok?
    ensures r.Ok? ==>
      && store.firs == old(store.firs) + [r.value]
      && r.value.id == old(store.nextId) && r.value.createdAt == now
      && r.value.user == requester && r.value.status == "Filed"
      && r.value.statusUpdates == [] && r.value.statusUpdateDate == None
      && r.value.accusedName == Some(if Truthy(body.accusedName) then body.accusedName.value else "Unknown")
      && Some(r.value.firNumber) == body.firNumber
      && Some(r.value.complainantName) == body.complainantName
      && Some(r.value.complainantPhone) == body.complainantPhone
      && Some(r.value.incidentType) == body.incidentType
      && Some(r.value.incidentDate) == body.incidentDate
      && Some(r.value.incidentLocation) == body.incidentLocation
      && Some(r.value.description) == body.description
    ensures r.Ok? ==> HistoryConsistent(r.value)
    ensures AllConsistent(old(store.firs)) ==> AllConsistent(store.firs)
  {
    if !RequiredPresent(body) {
      return Err(BadRequest("All required fields must be provided"));
    }
    if FindByNumber(store.firs, body.firNumber.value).Some? {
      return Err(BadRequest("FIR with this number already exists"));
    }
    var saved := store.Insert(NewFirInput(body, requester), now);
    match saved
    case Saved(doc) => r := Ok(doc);
    case Refused(_) => r := Err(BadRequest("Error registering FIR"));
  }

  /** GET `/`: the stored reports owned by the requester, in stored order. */
  function ListOwn(store: FirCollection, requester: UserId): (r: seq<Fir>)
    reads store
    ensures forall f :: f in r <==> f in store.firs && f.user == requester
    ensures multiset(r) <= multiset(store.firs)
  {
    Where(store.firs, (f: Fir) => f.user == requester)
  }

  /** GET `/:id`: 404 when no report has the id (whoever asks), 403 for someone else's report, else the report. */
  function GetById(store: FirCollection, requester: UserId, id: FirId): (r: Result<Fir>)
    reads store
    ensures r == Err(NotFound("FIR not found")) <==> forall k :: 0 <= k < |store.firs| ==> store.firs[k].id != id
    ensures r.Ok? ==> r.value in store.firs && r.value.id == id && r.value.user == requester
    ensures r.Err? && r.error.Forbidden? ==>
      r.error.message == "Not authorized to access this FIR"
      && exists f :: f in store.firs && f.id == id && f.user != requester
    ensures r.Ok? || r == Err(NotFound("FIR not found")) || r == Err(Forbidden("Not authorized to access this FIR"))
  {
    match store.FindById(id)
    case None => Err(NotFound("FIR not found"))
    case Some(f) =>
      if f.user != requester then Err(Forbidden("Not authorized to access this FIR")) else Ok(f)
  }

  /** In a valid store the owner of a report always reads it, and nobody else does. */
  lemma OwnerReads(store: FirCollection, f: Fir, requester: UserId)
    requires store.Valid() && f in store.firs
    ensures GetById(store, requester, f.id) == if requester == f.user then Ok(f)
      else Err(Forbidden("Not authorized to access this FIR"))
  {
    var k :| 0 <= k < |store.firs| && store.firs[k] == f;
    assert forall j :: 0 <= j < |store.firs| && store.firs[j].id == f.id ==> j == k by {
      assert UniqueIds(store.firs);
    }
  }

  /** What `.select(...)` of the search handler returns: nine public fields plus the `_id` Mongoose always includes. */
  datatype PublicFirView = PublicFirView(
    id: FirId,
    firNumber: string,
    incidentType: string,
    incidentDate: string,
    incidentLocation: string,
    description: string,
    accusedName: Option<string>,
    status: string,
    createdAt: nat,
    statusUpdateDate: Option<nat>)

  function View(f: Fir): (v: PublicFirView)
    ensures v.id == f.id && v.firNumber == f.firNumber && v.incidentType == f.incidentType
    ensures v.incidentDate == f.incidentDate && v.incidentLocation == f.incidentLocation
    ensures v.description == f.description && v.accusedName == f.accusedName
    ensures v.status == f.status && v.createdAt == f.createdAt && v.statusUpdateDate == f.statusUpdateDate
  {
    PublicFirView(f.id, f.firNumber, f.incidentType, f.incidentDate, f.incidentLocation,
      f.description, f.accusedName, f.status, f.createdAt, f.statusUpdateDate)
  }

  /** The view depends on no private field: reports differing only in complainant, owner and history look the same. */
  lemma ViewHidesPrivate(f: Fir, name: string, phone: string, owner: UserId, history: seq<StatusUpdate>)
    ensures View(f) == View(f.(complainantName := name, complainantPhone := phone, user := owner, statusUpdates := history))
  {
  }

  /**
   * GET `/search/:firNumber`, with no identity: 400 on an empty number, 404 when none matches,
   * else the public view. The 400 branch is kept as written, but Express never reaches it:
   * `/search/` with no number is matched by the `/:id` route declared before this one.
   */
  function Search(store: FirCollection, firNumber: string): (r: Result<PublicFirView>)
    reads store
    ensures firNumber == "" ==> r == Err(BadRequest("FIR number is required"))
    ensures firNumber != "" ==>
      (r == Err(NotFound("No FIR found with this number")) <==>
        forall k :: 0 <= k < |store.firs| ==> store.firs[k].firNumber != firNumber)
    ensures r.Ok? ==> exists f :: f in store.firs && f.firNumber == firNumber && r.value == View(f)
    ensures r.Ok? || r == Err(BadRequest("FIR number is required")) || r == Err(NotFound("No FIR found with this number"))
  {
    if firNumber == "" then Err(BadRequest("FIR number is required"))
    else
      match FindByNumber(store.firs, firNumber)
      case None => Err(NotFound("No FIR found with this number"))
      case Some(f) => Ok(View(f))
  }
}
