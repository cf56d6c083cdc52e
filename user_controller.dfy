/**
 * The citizen account handlers (backend/controllers/userController.js): registration with
 * ordered rejections, login, the profile read and the profile-update stub. Hashing,
 * comparing and signing are parameters.
 */
module UserController {
  import opened Wrappers
  import opened Http
  import opened Mongo
  import opened UserModel

  /** The fields of `req.body` a registration handler reads. */
  datatype RegisterBody = RegisterBody(
    name: Option<string>,
    email: Option<string>,
    password: Option<string>,
    phone: Option<string>,
    aadhar: Option<string>)

  /** The registration fields of a JSON request body; a missing key reads as `undefined`. */
  function RegisterBodyOf(json: map<string, string>): RegisterBody {
    RegisterBody(Lookup(json, "name"), Lookup(json, "email"), Lookup(json, "password"), Lookup(json, "phone"),
      Lookup(json, "aadhar"))
  }

  /** `name && email && password && phone && aadhar`. */
  predicate AllProvided(b: RegisterBody) {
    Truthy(b.name) && Truthy(b.email) && Truthy(b.password) && Truthy(b.phone) && Truthy(b.aadhar)
  }

  /**
   * The three rejections both registration controllers check, in order: a missing field,
   * an email already stored, an aadhar number already stored. `None` lets the request through.
   */
  function RegisterPrecheck(users: seq<User>, b: RegisterBody): (r: Option<Error>)
    ensures !AllProvided(b) ==> r == Some(BadRequest("Please provide all required fields"))
    ensures AllProvided(b) && (exists k :: 0 <= k < |users| && users[k].email == b.email.value) ==>
      r == Some(BadRequest("Email already registered"))
    ensures (&& AllProvided(b)
             && (forall k :: 0 <= k < |users| ==> users[k].email != b.email.value)
             && (exists k :: 0 <= k < |users| && users[k].aadhar == b.aadhar.value)) ==>
      r == Some(BadRequest("Aadhar number already registered"))
    ensures r.None? <==>
      && AllProvided(b)
      && (forall k :: 0 <= k < |users| ==> users[k].email != b.email.value)
      && (forall k :: 0 <= k < |users| ==> users[k].aadhar != b.aadhar.value)
  {
    if !AllProvided(b) then Some(BadRequest("Please provide all required fields"))
    else if FindByEmail(users, b.email).Some? then Some(BadRequest("Email already registered"))
    else if FindByAadhar(users, b.aadhar).Some? then Some(BadRequest("Aadhar number already registered"))
    else None
  }

  /** The fields `registerUser` sends back. */
  const RegisterKeys: set<string> := {"id", "name", "email", "phone", "aadhar"}
  /** The fields `loginUser` sends back. */
  const LoginKeys: set<string> := {"id", "name", "email", "phone", "aadhar", "role"}

  /** The object `registerUser` passes to `User.create`: no role, the password replaced by its hash. */
  function CitizenInput(b: RegisterBody, hash: Hasher): UserInput {
    UserInput(b.name, b.email, b.phone, b.aadhar, Some(hash(b.password.GetOr(""))), None)
  }

  /**
   * `registerUser`: on any precheck failure the table is unchanged and that error is sent;
   * otherwise exactly one user is added, with the default role 'citizen' and the hashed
   * password, and the reply carries a token and no password.
   */
  method RegisterUser(users: UserCollection, body: RegisterBody, hash: Hasher, sign: Signer, now: nat)
      returns (r: Result<UserReply>)
    requires users.Valid()
    modifies users
    ensures users.Valid()
    ensures RegisterPrecheck(old(users.users), body).Some? ==>
      r == Err(RegisterPrecheck(old(users.users), body).value) && users.users == old(users.users)
    ensures r.Err? ==> users.users == old(users.users)
    ensures var u := Construct(CitizenInput(body, hash), old(users.nextId), now);
      RegisterPrecheck(old(users.users), body).None? ==>
        if u.password == "" then r == Err(ServerError("Server error during registration"))
        else
          && r == Ok(UserReply("User registered successfully", Project(u, RegisterKeys), Some(sign(u.id))))
          && users.users == old(users.users) + [u]
          && u.role == "citizen" && u.password == hash(body.password.value)
          && "password" !in r.value.user
  {
    var rejected := RegisterPrecheck(users.users, body);
    if rejected.Some? {
      return Err(rejected.value);
    }
    var created := users.Create(CitizenInput(body, hash), now);
    match created
    case Saved(u) =>
      r := Ok(UserReply("User registered successfully", Project(u, RegisterKeys), Some(sign(u.id))));
    case Refused(reason) =>
      if reason == DuplicateKey {
        r := Err(BadRequest("User with this email or Aadhar already exists"));
      } else {
        r := Err(ServerError("Server error during registration"));
      }
  }

  /** The fields of `req.body` a login handler reads. */
  datatype LoginBody = LoginBody(email: Option<string>, password: Option<string>)

  /**
   * `loginUser`: 400 unless both fields are given; the same 401 for an unknown email and for
   * a wrong password; on success the user's public fields and a token for its id.
   */
  function LoginUser(users: UserCollection, body: LoginBody, matches: PasswordCheck, sign: Signer)
      : (r: Result<UserReply>)
    reads users
    ensures !(Truthy(body.email) && Truthy(body.password)) ==>
      r == Err(BadRequest("Please provide email and password"))
    ensures Truthy(body.email) && Truthy(body.password) ==>
      (r.Err? <==> r == Err(Unauthorized("Invalid email or password")))
    ensures r.Ok? ==> exists u ::
      && u in users.users && Some(u.email) == body.email
      && matches(body.password.value, u.password)
      && r.value == UserReply("User logged in successfully", Project(u, LoginKeys), Some(sign(u.id)))
  {
    if !(Truthy(body.email) && Truthy(body.password)) then Err(BadRequest("Please provide email and password"))
    else
      match FindByEmail(users.users, body.email)
      case None => Err(Unauthorized("Invalid email or password"))
      case Some(u) =>
        if !matches(body.password.value, u.password) then Err(Unauthorized("Invalid email or password"))
        else Ok(UserReply("User logged in successfully", Project(u, LoginKeys), Some(sign(u.id))))
  }

  /** With unique emails, login succeeds exactly when some stored user has that email and the password matches its hash. */
  lemma LoginSucceedsIffCredentials(users: UserCollection, body: LoginBody, matches: PasswordCheck, sign: Signer)
    requires users.Valid() && Truthy(body.email) && Truthy(body.password)
    ensures LoginUser(users, body, matches, sign).Ok? <==>
      exists k :: 0 <= k < |users.users| && users.users[k].email == body.email.value
        && matches(body.password.value, users.users[k].password)
  {
    var found := FindByEmail(users.users, body.email);
    if found.Some? {
      var j :| 0 <= j < |users.users| && users.users[j] == found.value;
      assert forall k :: 0 <= k < |users.users| && users.users[k].email == body.email.value ==> k == j by {
        assert UniqueEmails(users.users);
      }
    }
  }

  /** `getUserProfile`: the requester's stored record without its password, or 404. */
  function GetUserProfile(users: UserCollection, id: UserId): (r: Result<PublicUser>)
    reads users
    ensures r.Err? <==> forall k :: 0 <= k < |users.users| ==> users.users[k].id != id
    ensures r.Err? ==> r.error == NotFound("User not found")
    ensures r.Ok? ==> exists u :: u in users.users && u.id == id && r.value == WithoutPassword(u)
  {
    match FindById(users.users, id)
    case None => Err(NotFound("User not found"))
    case Some(u) => Ok(WithoutPassword(u))
  }

  /** `updateUserProfile`: a stub that answers 200 with a fixed message and has no effect on the table. */
  method UpdateUserProfile() returns (r: Result<string>)
    ensures r == Ok("User profile updated")
  {
    r := Ok("User profile updated");
  }
}
