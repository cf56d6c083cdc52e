/**
 * The client session held by the root component (E-FIR/src/App.js): the signed-in user and
 * the `isAuthenticated` and `loading` flags in memory, and the `user` entry of `localStorage`
 * that survives a reload. Login, logout and profile updates write both; the start-up restore
 * reads the entry back; the protected routes decide on the flags.
 */
module App {
  import opened Wrappers
  import Text
  import ProfilePage

  /** A user record: the JSON object `login` and `updateUser` store, with string fields. */
  type Record = map<string, string>

  /** What `localStorage.getItem('user')` returns when an entry exists, as the restore reads it. */
  datatype Item =
    | Empty                     // the string '': falsy, so the restore does not look at it
    | Unparsable                // `JSON.parse` throws
    | NotObject                 // parses to null, a number, a string, a boolean or an array: it has no token
    | Object(fields: Record)    // parses to an object

  /** `JSON.stringify(r)` as the restore will read it back. */
  function Stringify(r: Record): Item {
    Object(r)
  }

  /** The response body handed to `login`: its `user` object and its `token`, either of which may be missing. */
  datatype LoginData = LoginData(user: Option<Record>, token: Option<string>)

  /** What the start-up effect leaves behind: the user in memory, the flag, and the storage entry. */
  datatype Restored = Restored(user: Option<Record>, authenticated: bool, stored: Option<Item>)

  /**
   * The start-up effect on the stored entry: an object with a truthy token becomes the
   * signed-in user and stays stored; a non-empty entry that does not parse or has no truthy
   * token is removed; no entry, or the empty string, is left as it is and nobody is signed in.
   */
  function RestoreFrom(stored: Option<Item>): (r: Restored)
    ensures r.authenticated <==> r.user.Some?
    ensures r.authenticated <==>
      stored.Some? && stored.value.Object? && Truthy(Lookup(stored.value.fields, "token"))
    ensures r.authenticated ==> r.user == Some(stored.value.fields) && r.stored == stored
    ensures !r.authenticated ==> r.stored == (if stored == Some(Empty) then stored else None)
  {
    match stored
    case None => Restored(None, false, None)
    case Some(Empty) => Restored(None, false, stored)
    case Some(Unparsable) => Restored(None, false, None)
    case Some(NotObject) => Restored(None, false, None)
    case Some(Object(fields)) =>
      if Truthy(Lookup(fields, "token")) then Restored(Some(fields), true, stored)
      else Restored(None, false, None)
  }

  /**
   * `userToStore`: the fields of `userData.user` (or none), with `token` set to
   * `userData.token`. A missing token leaves no `token` key, since `JSON.stringify` drops
   * undefined values and reading `token` in memory gives undefined too.
   */
  function LoginRecord(d: LoginData): (r: Record)
    ensures Lookup(r, "token") == d.token
    ensures forall k :: k != "token" ==> Lookup(r, k) == (if d.user.Some? then Lookup(d.user.value, k) else None)
  {
    var base := d.user.GetOr(map[]);
    if d.token.Some? then base["token" := d.token.value] else base - {"token"}
  }

  /** `{...user, ...updatedUserData}`: the given keys take the new values, every other key of the user is kept. */
  function Merged(user: Option<Record>, data: Record): (r: Record)
    ensures r.Keys == data.Keys + (if user.Some? then user.value.Keys else {})
    ensures forall k :: k in data ==> Lookup(r, k) == Some(data[k])
    ensures forall k :: k !in data ==> Lookup(r, k) == (if user.Some? then Lookup(user.value, k) else None)
  {
    user.GetOr(map[]) + data
  }

  /** What a protected route renders. */
  datatype Route = Spinner | RedirectToLogin | Children

  /** The root component's state and the browser's storage entry. */
  class Session {
    var user: Option<Record>
    var isAuthenticated: bool
    var loading: bool
    var stored: Option<Item>

    /**
     * The memory and the storage agree: a user in memory is the stored record, the flag is
     * only set with a user, and while loading nobody is signed in.
     */
    ghost predicate Valid()
      reads this
    {
      && (user.Some? ==> stored == Some(Stringify(user.value)))
      && (isAuthenticated ==> user.Some?)
      && (loading ==> user.None? && !isAuthenticated)
    }

    /** The first render: no user, not authenticated, loading, over whatever the browser has stored. */
    constructor (storage: Option<Item>)
      ensures Valid()
      ensures user.None? && !isAuthenticated && loading && stored == storage
    {
      user := None;
      isAuthenticated := false;
      loading := true;
      stored := storage;
    }

    /**
     * The start-up effect, run once after the first render (its dependency list is empty):
     * the stored entry is read back as `RestoreFrom` says, and loading ends.
     */
    method Restore()
      requires Valid() && loading
      modifies this
      ensures Valid()
      ensures !loading
      ensures var r := RestoreFrom(old(stored));
        user == r.user && isAuthenticated == r.authenticated && stored == r.stored
      ensures ProtectedRoute() == Children <==> RestoreFrom(old(stored)).authenticated
    {
      if stored.Some? && stored.value != Empty {
        match stored.value
        case Unparsable =>
          stored := None;
        case NotObject =>
          stored := None;
        case Object(fields) =>
          if Truthy(Lookup(fields, "token")) {
            user := Some(fields);
            isAuthenticated := true;
          } else {
            stored := None;
          }
      }
      loading := false;
    }

    /**
     * `login`: the record is stored and held in memory, and the user counts as signed in.
     * While loading only the spinner is rendered, so no page can call it then.
     */
    method Login(d: LoginData)
      requires Valid() && !loading
      modifies this
      ensures Valid()
      ensures user == Some(LoginRecord(d)) && stored == Some(Stringify(LoginRecord(d)))
      ensures isAuthenticated && !loading
      ensures ProtectedRoute() == Children
    {
      var record := LoginRecord(d);
      stored := Some(Stringify(record));
      user := Some(record);
      isAuthenticated := true;
    }

    /** `logout`: the entry is removed, and nobody is signed in. */
    method Logout()
      requires Valid()
      modifies this
      ensures Valid()
      ensures stored.None? && user.None? && !isAuthenticated && loading == old(loading)
      ensures ProtectedRoute() != Children
    {
      stored := None;
      user := None;
      isAuthenticated := false;
    }

    /**
     * `updateUser`: the merged record is stored and held in memory; whether the user counts
     * as signed in does not change.
     */
    method UpdateUser(data: Record)
      requires Valid() && !loading
      modifies this
      ensures Valid()
      ensures user == Some(Merged(old(user), data)) && stored == Some(Stringify(Merged(old(user), data)))
      ensures isAuthenticated == old(isAuthenticated) && !loading
    {
      var updated := Merged(user, data);
      stored := Some(Stringify(updated));
      user := Some(updated);
    }

    /** `ProtectedRoute`: the children only when loading is over and the user is signed in. */
    function ProtectedRoute(): (r: Route)
      reads this
      ensures r == Spinner <==> loading
      ensures r == Children <==> !loading && isAuthenticated
    {
      if loading then Spinner
      else if !isAuthenticated then RedirectToLogin
      else Children
    }
  }

  /**
   * A reload after `login` signs the same user back in exactly when the token given to
   * `login` was truthy; otherwise the entry is dropped and nobody is signed in.
   */
  lemma RestoreAfterLogin(d: LoginData)
    ensures var r := RestoreFrom(Some(Stringify(LoginRecord(d))));
      && (r.authenticated <==> Truthy(d.token))
      && (r.authenticated ==> r.user == Some(LoginRecord(d)))
      && (!r.authenticated ==> r.stored.None?)
  {
    assert Lookup(LoginRecord(d), "token") == d.token;
  }

  /**
   * An update that does not name `token` keeps the token, so a reload after it still signs
   * the updated user in, holding every field the update gave.
   */
  lemma RestoreAfterUpdate(user: Record, data: Record)
    requires RestoreFrom(Some(Stringify(user))).authenticated
    requires "token" !in data
    ensures Lookup(Merged(Some(user), data), "token") == Lookup(user, "token")
    ensures RestoreFrom(Some(Stringify(Merged(Some(user), data)))) ==
      Restored(Some(Merged(Some(user), data)), true, Some(Stringify(Merged(Some(user), data))))
  {
    assert Lookup(Merged(Some(user), data), "token") == Lookup(user, "token");
  }

  /**
   * Saving the profile page sends `updateUser` a diff of name and phone only, so the
   * signed-in user survives a reload holding the new values.
   */
  lemma ProfileSaveKeepsSession(form: map<string, string>, user: Record, diff: Record)
    requires "name" in form && "phone" in form && ProfilePage.IsDiff(form, user, diff)
    requires RestoreFrom(Some(Stringify(user))).authenticated
    ensures var r := RestoreFrom(Some(Stringify(Merged(Some(user), diff))));
      && r.authenticated
      && r.user.Some? && Lookup(r.user.value, "name") == Some(Text.Trim(form["name"]))
  {
    assert "token" !in diff;
    RestoreAfterUpdate(user, diff);
    ProfilePage.MergedUserAgrees(form, user, diff);
  }
}
