/**
 * The police handlers of backend/controllers/adminController.js: login restricted to the
 * 'police' role, the list of all reports with an optional status filter, one report's
 * detail, the status update, and police registration. No route file mounts them; they are
 * modelled as written, and standing behind `isAdminOrPolice` is the caller's business.
 */
module AdminController {
  import opened Wrappers
  import opened Http
  import opened Mongo
  import opened FirModel
  import opened UserModel
  import UserController

  /** The fields `adminLogin` sends back. */
  const PoliceLoginKeys: set<string> := {"id", "name", "email", "phone", "role"}

  /**
   * `adminLogin`: 400 unless both fields are given; 401 when no user has that email and role
   * 'police'; a different 401 when the password does not match; else the public fields and a token.
   */
  function AdminLogin(users: UserCollection, body: UserController.LoginBody, matches: PasswordCheck, sign: Signer)
      : (r: Result<UserReply>)
    reads users
    ensures !(Truthy(body.email) && Truthy(body.password)) ==>
      r == Err(BadRequest("Please provide email and password"))
    ensures Truthy(body.email) && Truthy(body.password) ==>
      (r == Err(Unauthorized("Invalid credentials or insufficient permissions")) <==>
        forall k :: 0 <= k < |users.users| ==>
          !(users.users[k].email == body.email.value && users.users[k].role == PoliceRole))
    ensures r.Ok? || r.error in {BadRequest("Please provide email and password"),
      Unauthorized("Invalid credentials or insufficient permissions"), Unauthorized("Invalid credentials")}
    ensures r.Ok? ==> exists u ::
      && u in users.users && Some(u.email) == body.email && u.role == PoliceRole
      && matches(body.password.value, u.password)
      && r.value == UserReply("Login successful", Project(u, PoliceLoginKeys), Some(sign(u.id)))
  {
    if !(Truthy(body.email) && Truthy(body.password)) then Err(BadRequest("Please provide email and password"))
    else
      match FindPoliceByEmail(users.users, body.email)
      case None => Err(Unauthorized("Invalid credentials or insufficient permissions"))
      case Some(u) =>
        if !matches(body.password.value, u.password) then Err(Unauthorized("Invalid credentials"))
        else Ok(UserReply("Login successful", Project(u, PoliceLoginKeys), Some(sign(u.id))))
  }

  /**
   * With unique emails and both fields given, the police login succeeds exactly when a
   * police user has that email and the password matches its hash.
   */
  lemma AdminLoginSucceedsIffCredentials(users: UserCollection, body: UserController.LoginBody,
                                         matches: PasswordCheck, sign: Signer)
    requires users.Valid() && Truthy(body.email) && Truthy(body.password)
    ensures AdminLogin(users, body, matches, sign).Ok? <==>
      exists k :: 0 <= k < |users.users| && users.users[k].email == body.email.value
        && users.users[k].role == PoliceRole && matches(body.password.value, users.users[k].password)
  {
    var found := FindPoliceByEmail(users.users, body.email);
    if found.Some? {
      var j :| 0 <= j < |users.users| && users.users[j] == found.value;
      assert forall k :: 0 <= k < |users.users| && users.users[k].email == body.email.value ==> k == j by {
        assert UniqueEmails(users.users);
      }
    }
  }

  /** A citizen account never logs in here, whatever its password. */
  lemma AdminLoginRejectsCitizens(users: UserCollection, body: UserController.LoginBody, matches: PasswordCheck,
                                  sign: Signer)
    requires users.Valid() && Truthy(body.email) && Truthy(body.password)
    requires exists k ::
      0 <= k < |users.users| && users.users[k].email == body.email.value && users.users[k].role != PoliceRole
    ensures AdminLogin(users, body, matches, sign) == Err(Unauthorized("Invalid credentials or insufficient permissions"))
  {
    var k :| 0 <= k < |users.users| && users.users[k].email == body.email.value && users.users[k].role != PoliceRole;
    assert forall j :: 0 <= j < |users.users| && users.users[j].email == body.email.value ==> j == k by {
      assert UniqueEmails(users.users);
    }
  }

  /**
   * `getAllFIRs`: the reports newest first; with a truthy `status` query, exactly the reports
   * with that status, otherwise all of them.
   */
  function GetAllFirs(store: FirCollection, status: Option<string>): (r: seq<Fir>)
    reads store
    ensures NewestFirst(r)
    ensures forall f :: f in r <==> f in store.firs && (Truthy(status) ==> f.status == status.value)
    ensures multiset(r) <= multiset(store.firs)
    ensures !Truthy(status) ==> multiset(r) == multiset(store.firs)
    ensures Truthy(status) ==> multiset(r) == multiset(Where(store.firs, (f: Fir) => f.status == status.value))
  {
    var kept := if Truthy(status) then Where(store.firs, (f: Fir) => f.status == status.value) else store.firs;
    var r := SortNewestFirst(kept);
    SameMembers(r, kept);
    r
  }

  /** `getFIRDetail`: the report with that `_id`, or 404. */
  function GetFirDetail(store: FirCollection, id: FirId): (r: Result<Fir>)
    reads store
    ensures r.Err? <==> forall k :: 0 <= k < |store.firs| ==> store.firs[k].id != id
    ensures r.Err? ==> r.error == NotFound("FIR not found")
    ensures r.Ok? ==> r.value in store.firs && r.value.id == id
  {
    match store.FindById(id)
    case None => Err(NotFound("FIR not found"))
    case Some(f) => Ok(f)
  }

  /** The fields of `req.body` a status update reads. */
  datatype StatusBody = StatusBody(status: Option<string>, comment: Option<string>)

  /** The body of a successful status update. */
  datatype StatusReply = StatusReply(message: string, fir: Fir)

  /**
   * `updateFIRStatus`: 400 without a status, then 404 for an unknown id; a status outside
   * the enum fails validation on save (500). Otherwise the stored report gains exactly one
   * entry `{status, comment or '', now}`, takes the new status and update date, and is
   * otherwise unchanged. The store is unchanged on every error.
   */
  method UpdateFirStatus(store: FirCollection, id: FirId, body: StatusBody, now: nat) returns (r: Result<StatusReply>)
    requires store.Valid()
    modifies store
    ensures store.Valid() && store.nextId == old(store.nextId)
    ensures r.Err? ==> store.firs == old(store.firs)
    ensures !Truthy(body.status) ==> r == Err(BadRequest("Status is required"))
    ensures Truthy(body.status) && IndexOfId(old(store.firs), id).None? ==> r == Err(NotFound("FIR not found"))
    ensures var at := IndexOfId(old(store.firs), id);
      Truthy(body.status) && at.Some? ==>
        if !IsStatus(body.status.value) then r == Err(ServerError("Error updating FIR status"))
        else
          var updated := AppendStatus(old(store.firs)[at.value], body.status.value,
            Some(OrDefault(body.comment, "")), now);
          && r == Ok(StatusReply("FIR status updated successfully", updated))
          && store.firs == old(store.firs)[at.value := updated]
    ensures AllConsistent(old(store.firs)) ==> AllConsistent(store.firs)
  {
    if !Truthy(body.status) {
      return Err(BadRequest("Status is required"));
    }
    var found := store.FindById(id);
    if found.None? {
      return Err(NotFound("FIR not found"));
    }
    ghost var at := IndexOfId(store.firs, id).value;
    var updated := AppendStatus(found.value, body.status.value, Some(OrDefault(body.comment, "")), now);
    if IsStatus(body.status.value) {
      AppendStatusPreserves(found.value, body.status.value, Some(OrDefault(body.comment, "")), now);
    }
    SameKeysNoCollision(store.firs, at, updated);
    ghost var before := store.firs;
    var saved := store.Save(updated);
    match saved
    case Saved(doc) =>
      r := Ok(StatusReply("FIR status updated successfully", doc));
      AllConsistentUpdate(before, at, updated);
    case Refused(_) =>
      r := Err(ServerError("Error updating FIR status"));
  }

  /** Replacing one document by a consistent one keeps a consistent collection consistent. */
  lemma AllConsistentUpdate(firs: seq<Fir>, at: nat, doc: Fir)
    requires at < |firs|
    requires HistoryConsistent(firs[at]) ==> HistoryConsistent(doc)
    ensures AllConsistent(firs) ==> AllConsistent(firs[at := doc])
  {
  }

  /** The object `registerPoliceUser` passes to `User.create`: role 'police', the password replaced by its hash. */
  function PoliceInput(b: UserController.RegisterBody, hash: Hasher): UserInput {
    UserInput(b.name, b.email, b.phone, b.aadhar, Some(hash(b.password.GetOr(""))), Some(PoliceRole))
  }

  /** The fields `registerPoliceUser` sends back. */
  const PoliceRegisterKeys: set<string> := {"id", "name", "email", "phone", "role"}

  /**
   * `registerPoliceUser`: the same ordered rejections as citizen registration; otherwise
   * exactly one user is added with role 'police' and the hashed password, and the reply
   * omits the password and carries no token.
   */
  method RegisterPoliceUser(users: UserCollection, body: UserController.RegisterBody, hash: Hasher, now: nat)
      returns (r: Result<UserReply>)
    requires users.Valid()
    modifies users
    ensures users.Valid()
    ensures r.Err? ==> users.users == old(users.users)
    ensures UserController.RegisterPrecheck(old(users.users), body).Some? ==>
      r == Err(UserController.RegisterPrecheck(old(users.users), body).value)
    ensures var u := UserModel.Construct(PoliceInput(body, hash), old(users.nextId), now);
      UserController.RegisterPrecheck(old(users.users), body).None? ==>
        if u.password == "" then r == Err(ServerError("Server error during registration"))
        else
          && r == Ok(UserReply("Police user registered successfully", Project(u, PoliceRegisterKeys), None))
          && users.users == old(users.users) + [u]
          && u.role == PoliceRole && u.password == hash(body.password.value)
          && "password" !in r.value.user
  {
    var rejected := UserController.RegisterPrecheck(users.users, body);
    if rejected.Some? {
      return Err(rejected.value);
    }
    var created := users.Create(PoliceInput(body, hash), now);
    match created
    case Saved(u) =>
      r := Ok(UserReply("Police user registered successfully", Project(u, PoliceRegisterKeys), None));
    case Refused(reason) =>
      if reason == DuplicateKey {
        r := Err(BadRequest("User with this email or Aadhar already exists"));
      } else {
        r := Err(ServerError("Server error during registration"));
      }
  }
}
