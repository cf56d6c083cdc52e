/**
 * The user document schema (backend/models/User.js) and the collection built from it:
 * required fields, unique indexes on `email` and `aadhar`, the default role, and the
 * password-free views the handlers send back.
 */
module UserModel {
  import opened Wrappers
  import opened Mongo
  import Text

  type UserId = nat

  /** The schema default for `role`; any other string is admitted too. */
  const DefaultRole: string := "citizen"
  const PoliceRole: string := "police"

  /** A stored user; `password` holds the bcrypt hash. */
  datatype User = User(
    id: UserId,
    name: string,
    email: string,
    phone: string,
    aadhar: string,
    password: string,
    role: string,
    createdAt: nat)

  /** The object given to `User.create({...})`; absent keys are `None`. */
  datatype UserInput = UserInput(
    name: Option<string>,
    email: Option<string>,
    phone: Option<string>,
    aadhar: Option<string>,
    password: Option<string>,
    role: Option<string>)

  /** The document `User.create(input)` builds; the schema default fills an absent role. */
  function Construct(input: UserInput, id: UserId, now: nat): (u: User)
    ensures u.id == id && u.createdAt == now
    ensures input.role.None? ==> u.role == DefaultRole
    ensures input.role.Some? ==> u.role == input.role.value
  {
    User(id, input.name.GetOr(""), input.email.GetOr(""), input.phone.GetOr(""),
      input.aadhar.GetOr(""), input.password.GetOr(""), input.role.GetOr(DefaultRole), now)
  }

  /** The required validators: name, email, phone, aadhar and password present and non-empty. */
  predicate Conforms(u: User) {
    u.name != "" && u.email != "" && u.phone != "" && u.aadhar != "" && u.password != ""
  }

  /** A freshly built user passes validation exactly when its five required inputs are truthy. */
  lemma ConstructConforms(input: UserInput, id: UserId, now: nat)
    ensures Conforms(Construct(input, id, now)) <==>
      Truthy(input.name) && Truthy(input.email) && Truthy(input.phone)
      && Truthy(input.aadhar) && Truthy(input.password)
  {
  }

  // ---------------------------------------------------------------------------
  // Lookups

  /** `findOne(filter)`: the first stored user the filter accepts. */
  function FindFirst(users: seq<User>, keep: User -> bool): (r: Option<User>)
    ensures r.Some? ==> r.value in users && keep(r.value)
    ensures r.None? ==> forall k :: 0 <= k < |users| ==> !keep(users[k])
  {
    if users == [] then None
    else if keep(users[0]) then Some(users[0])
    else FindFirst(users[1..], keep)
  }

  /** `findOne` returns the first match: a document the filter keeps with none kept before it. */
  lemma {:induction false} FindFirstIsFirst(users: seq<User>, keep: User -> bool, k: nat)
    requires k < |users| && keep(users[k])
    requires forall j :: 0 <= j < k ==> !keep(users[j])
    ensures FindFirst(users, keep) == Some(users[k])
  {
    if k > 0 {
      assert !keep(users[0]);
      FindFirstIsFirst(users[1..], keep, k - 1);
    }
  }

  /**
   * The condition `{ key: value }` on a stored field. Mongoose removes a key whose value is
   * `undefined` from the filter, so an absent value places no condition at all.
   */
  predicate FieldMatches(field: string, value: Option<string>) {
    value.None? || field == value.value
  }

  /** `findOne({ email })`; with `email` undefined this is `findOne({})`, the first stored user. */
  function FindByEmail(users: seq<User>, email: Option<string>): Option<User> {
    FindFirst(users, (u: User) => FieldMatches(u.email, email))
  }

  /** `findOne({ aadhar })`; with `aadhar` undefined, the first stored user. */
  function FindByAadhar(users: seq<User>, aadhar: Option<string>): Option<User> {
    FindFirst(users, (u: User) => FieldMatches(u.aadhar, aadhar))
  }

  /** `findOne({ email, role: 'police' })`; with `email` undefined, the first police user. */
  function FindPoliceByEmail(users: seq<User>, email: Option<string>): Option<User> {
    FindFirst(users, (u: User) => FieldMatches(u.email, email) && u.role == PoliceRole)
  }

  /** `findById(id)`. */
  function FindById(users: seq<User>, id: UserId): Option<User> {
    FindFirst(users, (u: User) => u.id == id)
  }

  // ---------------------------------------------------------------------------
  // Views

  /** The user without its password: what `.select('-password')` returns. */
  datatype PublicUser = PublicUser(
    id: UserId,
    name: string,
    email: string,
    phone: string,
    aadhar: string,
    role: string,
    createdAt: nat)

  function WithoutPassword(u: User): (p: PublicUser)
    ensures p.id == u.id && p.name == u.name && p.email == u.email && p.phone == u.phone
    ensures p.aadhar == u.aadhar && p.role == u.role && p.createdAt == u.createdAt
  {
    PublicUser(u.id, u.name, u.email, u.phone, u.aadhar, u.role, u.createdAt)
  }

  /** A JSON object with string values, as the handlers send it. */
  type JsonObject = map<string, string>

  /** The JSON text of one field of a stored user (the `_id` in decimal). */
  function FieldText(u: User, key: string): Option<string> {
    if key == "id" then Some(Text.Decimal(u.id))
    else if key == "name" then Some(u.name)
    else if key == "email" then Some(u.email)
    else if key == "phone" then Some(u.phone)
    else if key == "aadhar" then Some(u.aadhar)
    else if key == "password" then Some(u.password)
    else if key == "role" then Some(u.role)
    else None
  }

  /** The object literal `{ id: user._id, name: user.name, ... }` over the listed keys. */
  function Project(u: User, keys: set<string>): (m: JsonObject)
    ensures forall k :: k in m <==> k in keys && FieldText(u, k).Some?
    ensures forall k :: k in m ==> m[k] == FieldText(u, k).value
  {
    map k | k in keys && FieldText(u, k).Some? :: FieldText(u, k).value
  }

  /** The body of a login or registration response: a message, a user object, and a token when one is issued. */
  datatype UserReply = UserReply(message: string, user: JsonObject, token: Option<string>)

  /** bcrypt's `compare(plain, hash)`, left uninterpreted. */
  type PasswordCheck = (string, string) -> bool

  /** `jwt.sign({ id }, secret, { expiresIn: '30d' })` for a fixed secret and clock, left uninterpreted. */
  type Signer = UserId -> string

  /** `bcrypt.hash(plain, salt)` for a fixed salt, left uninterpreted. */
  type Hasher = string -> string

  // ---------------------------------------------------------------------------
  // The collection

  ghost predicate UniqueIds(users: seq<User>) {
    forall i, j :: 0 <= i < j < |users| ==> users[i].id != users[j].id
  }

  /** No two users share an email. */
  ghost predicate UniqueEmails(users: seq<User>) {
    forall i, j :: 0 <= i < j < |users| ==> users[i].email != users[j].email
  }

  /** No two users share an aadhar number. */
  ghost predicate UniqueAadhars(users: seq<User>) {
    forall i, j :: 0 <= i < j < |users| ==> users[i].aadhar != users[j].aadhar
  }

  /** The user collection in insertion order, with the next `_id` to hand out. */
  class UserCollection {
    var users: seq<User>
    var nextId: UserId

    /** Every stored user passed validation; `_id`s, emails and aadhar numbers are unique. */
    ghost predicate Valid()
      reads this
    {
      && (forall k :: 0 <= k < |users| ==> users[k].id < nextId && Conforms(users[k]))
      && UniqueIds(users) && UniqueEmails(users) && UniqueAadhars(users)
    }

    constructor ()
      ensures Valid() && users == []
    {
      users := [];
      nextId := 0;
    }

    /** `User.create(input)`: validate, check both unique indexes, then append with a fresh `_id`. */
    method Create(input: UserInput, now: nat) returns (r: SaveResult<User>)
      requires Valid()
      modifies this
      ensures Valid()
      ensures var u := Construct(input, old(nextId), now);
        if !Conforms(u) then r == Refused(ValidationFailed) && users == old(users)
        else if FindByEmail(old(users), Some(u.email)).Some? || FindByAadhar(old(users), Some(u.aadhar)).Some? then
          r == Refused(DuplicateKey) && users == old(users)
        else r == Saved(u) && users == old(users) + [u]
    {
      var u := Construct(input, nextId, now);
      if !Conforms(u) {
        return Refused(ValidationFailed);
      }
      if FindByEmail(users, Some(u.email)).Some? || FindByAadhar(users, Some(u.aadhar)).Some? {
        return Refused(DuplicateKey);
      }
      users := users + [u];
      nextId := nextId + 1;
      r := Saved(u);
    }
  }
}
