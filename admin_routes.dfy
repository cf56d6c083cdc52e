/**
 * The inline police routes of backend/routes/adminRoutes.js. They overlap the controller in
 * AdminController but behave differently: login skips the missing-field check, the FIR
 * routes test `role === 'police'` themselves (so 'admin' is refused) before looking the
 * report up, the status update neither requires a status nor defaults the comment, and
 * registration checks only the email, needs no authentication and sends no phone back.
 * `server.js` mounts no admin router, so these, like the controller, are reference behaviour.
 */
module AdminRoutes {
  import opened Wrappers
  import opened Http
  import opened Mongo
  import opened FirModel
  import opened UserModel
  import UserController
  import AdminController
  import AdminMiddleware

  /** The fields `/login` sends back. */
  const LoginKeys: set<string> := {"id", "name", "email", "phone", "role"}

  /**
   * POST `/login`: 401 when no user has that email and role 'police'; a 500 when the password
   * is absent (bcrypt's compare throws on `undefined`); 401 when it does not match; else the
   * public fields and a token. There is no missing-field check: without an email the lookup
   * is `findOne({ role: 'police' })`, so the password is compared with the first police user's.
   */
  function Login(users: UserCollection, body: UserController.LoginBody, matches: PasswordCheck, sign: Signer)
      : (r: Result<UserReply>)
    reads users
    ensures r == Err(Unauthorized("Invalid credentials or not authorized as police")) <==>
      forall k :: 0 <= k < |users.users| ==>
        !(FieldMatches(users.users[k].email, body.email) && users.users[k].role == PoliceRole)
    ensures r == Err(ServerError("Server error")) ==> body.password.None?
    ensures r.Ok? || r.error in {Unauthorized("Invalid credentials or not authorized as police"),
      ServerError("Server error"), Unauthorized("Invalid credentials")}
    ensures r.Ok? ==> exists u ::
      && u in users.users && FieldMatches(u.email, body.email) && u.role == PoliceRole
      && body.password.Some? && matches(body.password.value, u.password)
      && r.value == UserReply("Login successful", Project(u, LoginKeys), Some(sign(u.id)))
  {
    match FindPoliceByEmail(users.users, body.email)
    case None => Err(Unauthorized("Invalid credentials or not authorized as police"))
    case Some(u) =>
      if body.password.None? then Err(ServerError("Server error"))
      else if !matches(body.password.value, u.password) then Err(Unauthorized("Invalid credentials"))
      else Ok(UserReply("Login successful", Project(u, LoginKeys), Some(sign(u.id))))
  }

  /**
   * A body with a password and no email logs in as the first stored police user whenever
   * the password matches that user's hash.
   */
  lemma LoginWithoutEmail(users: UserCollection, password: string, k: nat, matches: PasswordCheck, sign: Signer)
    requires k < |users.users| && users.users[k].role == PoliceRole
    requires forall j :: 0 <= j < k ==> users.users[j].role != PoliceRole
    requires matches(password, users.users[k].password)
    ensures var u := users.users[k];
      Login(users, UserController.LoginBody(None, Some(password)), matches, sign)
        == Ok(UserReply("Login successful", Project(u, LoginKeys), Some(sign(u.id))))
  {
    FindFirstIsFirst(users.users, (u: User) => FieldMatches(u.email, None) && u.role == PoliceRole, k);
  }

  /**
   * With unique emails and an email given, the route admits exactly a police user with that
   * email whose hash matches the given password.
   */
  lemma LoginSucceedsIffCredentials(users: UserCollection, body: UserController.LoginBody,
                                    matches: PasswordCheck, sign: Signer)
    requires users.Valid() && body.email.Some?
    ensures Login(users, body, matches, sign).Ok? <==>
      body.password.Some? &&
      exists k :: 0 <= k < |users.users| && users.users[k].email == body.email.value
        && users.users[k].role == PoliceRole && matches(body.password.value, users.users[k].password)
  {
    var found := FindPoliceByEmail(users.users, body.email);
    if found.Some? {
      var j :| 0 <= j < |users.users| && users.users[j] == found.value;
      assert forall k :: 0 <= k < |users.users| && users.users[k].email == body.email.value ==> k == j by {
        assert UniqueEmails(users.users);
      }
    }
  }

  /**
   * On a body with both fields given the two logins let in the same accounts with the same
   * reply; an unknown account gets a differently worded 401 from each.
   */
  lemma LoginVariantsAgree(users: UserCollection, body: UserController.LoginBody, matches: PasswordCheck, sign: Signer)
    requires Truthy(body.email) && Truthy(body.password)
    ensures Login(users, body, matches, sign).Ok? <==> AdminController.AdminLogin(users, body, matches, sign).Ok?
    ensures Login(users, body, matches, sign).Ok? ==>
      Login(users, body, matches, sign) == AdminController.AdminLogin(users, body, matches, sign)
  {
  }

  /** The inline role test: only 'police' passes. */
  predicate IsPolice(requester: PublicUser) {
    requester.role == PoliceRole
  }

  /** GET `/firs` behind `protect`: 403 unless the requester is police, else every report, newest first. */
  function AllFirs(store: FirCollection, requester: PublicUser): (r: Result<seq<Fir>>)
    reads store
    ensures !IsPolice(requester) <==> r == Err(Forbidden("Not authorized"))
    ensures r.Ok? ==> NewestFirst(r.value) && multiset(r.value) == multiset(store.firs)
  {
    if !IsPolice(requester) then Err(Forbidden("Not authorized")) else Ok(SortNewestFirst(store.firs))
  }

  /** An 'admin' account passes the `isAdminOrPolice` gate yet is refused by the inline role test. */
  lemma AdminPassesGateButNotRoutes(store: FirCollection, requester: PublicUser)
    requires requester.role == AdminMiddleware.AdminRole
    ensures AdminMiddleware.IsAdminOrPolice(Some(requester)) == AdminMiddleware.Next
    ensures AllFirs(store, requester) == Err(Forbidden("Not authorized"))
  {
  }

  /** GET `/firs/:id` behind `protect`: 403 for a non-police requester whether or not the id exists, then 404, then the report. */
  function FirById(store: FirCollection, requester: PublicUser, id: FirId): (r: Result<Fir>)
    reads store
    ensures !IsPolice(requester) ==> r == Err(Forbidden("Not authorized"))
    ensures IsPolice(requester) ==>
      (r == Err(NotFound("FIR not found")) <==> forall k :: 0 <= k < |store.firs| ==> store.firs[k].id != id)
    ensures r.Ok? ==> r.value in store.firs && r.value.id == id
    ensures r.Ok? || r == Err(Forbidden("Not authorized")) || r == Err(NotFound("FIR not found"))
  {
    if !IsPolice(requester) then Err(Forbidden("Not authorized"))
    else
      match store.FindById(id)
      case None => Err(NotFound("FIR not found"))
      case Some(f) => Ok(f)
  }

  /**
   * PUT `/firs/:id/status` behind `protect`: 403 for a non-police requester (before the
   * lookup), then 404. The entry `{status, comment, now}` is pushed as given; an absent or
   * non-enum status fails validation on save (500). On success the stored report gains that
   * one entry, takes the status and update date, and is otherwise unchanged.
   */
  method UpdateStatus(store: FirCollection, requester: PublicUser, id: FirId, body: AdminController.StatusBody, now: nat)
      returns (r: Result<AdminController.StatusReply>)
    requires store.Valid()
    modifies store
    ensures store.Valid() && store.nextId == old(store.nextId)
    ensures r.Err? ==> store.firs == old(store.firs)
    ensures !IsPolice(requester) ==> r == Err(Forbidden("Not authorized"))
    ensures IsPolice(requester) && IndexOfId(old(store.firs), id).None? ==> r == Err(NotFound("FIR not found"))
    ensures var at := IndexOfId(old(store.firs), id);
      IsPolice(requester) && at.Some? ==>
        if body.status.None? || !IsStatus(body.status.value) then r == Err(ServerError("Server error"))
        else
          var updated := AppendStatus(old(store.firs)[at.value], body.status.value, body.comment, now);
          && r == Ok(AdminController.StatusReply("Status updated successfully", updated))
          && store.firs == old(store.firs)[at.value := updated]
    ensures AllConsistent(old(store.firs)) ==> AllConsistent(store.firs)
  {
    if !IsPolice(requester) {
      return Err(Forbidden("Not authorized"));
    }
    var found := store.FindById(id);
    if found.None? {
      return Err(NotFound("FIR not found"));
    }
    ghost var at := IndexOfId(store.firs, id).value;
    var status := body.status.GetOr("");
    var updated := AppendStatus(found.value, status, body.comment, now);
    if IsStatus(status) {
      AppendStatusPreserves(found.value, status, body.comment, now);
    }
    SameKeysNoCollision(store.firs, at, updated);
    ghost var before := store.firs;
    var saved := store.Save(updated);
    match saved
    case Saved(doc) =>
      r := Ok(AdminController.StatusReply("Status updated successfully", doc));
      AdminController.AllConsistentUpdate(before, at, updated);
    case Refused(_) =>
      r := Err(ServerError("Server error"));
  }

  /** `findOne({ email })` finds a user: one has this email, or the email is absent and the table is not empty. */
  predicate EmailTaken(users: seq<User>, email: Option<string>) {
    exists k :: 0 <= k < |users| && FieldMatches(users[k].email, email)
  }

  /** Some stored user has this aadhar number. */
  predicate AadharTaken(users: seq<User>, aadhar: string) {
    exists k :: 0 <= k < |users| && users[k].aadhar == aadhar
  }

  /** The fields `/register` sends back: no phone, no password. */
  const RegisterKeys: set<string> := {"id", "name", "email", "role"}

  /**
   * POST `/register`, unauthenticated: 400 on an email already stored, or on any stored
   * user at all when the email is absent (`findOne({})`); a 500 when the
   * password is absent (bcrypt's hash throws) or when `User.create` fails, which includes a
   * duplicate aadhar number; otherwise exactly one user with role 'police' is added.
   */
  method Register(users: UserCollection, body: UserController.RegisterBody, hash: Hasher, now: nat)
      returns (r: Result<UserReply>)
    requires users.Valid()
    modifies users
    ensures users.Valid()
    ensures r.Err? ==> users.users == old(users.users)
    ensures EmailTaken(old(users.users), body.email) <==> r == Err(BadRequest("User already exists"))
    ensures !EmailTaken(old(users.users), body.email) && body.password.None? ==> r == Err(ServerError("Server error"))
    ensures var u := UserModel.Construct(AdminController.PoliceInput(body, hash), old(users.nextId), now);
      !EmailTaken(old(users.users), body.email) && body.password.Some? ==>
        if !UserModel.Conforms(u) || AadharTaken(old(users.users), u.aadhar) then r == Err(ServerError("Server error"))
        else
          && r == Ok(UserReply("Police user registered successfully", Project(u, RegisterKeys), None))
          && users.users == old(users.users) + [u]
          && u.role == PoliceRole && u.password == hash(body.password.value)
          && "password" !in r.value.user && "phone" !in r.value.user
  {
    if FindByEmail(users.users, body.email).Some? {
      return Err(BadRequest("User already exists"));
    }
    if body.password.None? {
      return Err(ServerError("Server error"));
    }
    var created := users.Create(AdminController.PoliceInput(body, hash), now);
    match created
    case Saved(u) =>
      r := Ok(UserReply("Police user registered successfully", Project(u, RegisterKeys), None));
    case Refused(_) =>
      r := Err(ServerError("Server error"));
  }
}
