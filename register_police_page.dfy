/**
 * The police registration page (E-FIR/src/pages/admin/RegisterPolicePage.js): the same
 * account form as citizen registration, then a check that the signed-in administrator
 * holds a token, and a post to `/admin/register-police` carrying that token as a bearer header.
 */
module RegisterPolicePage {
  import opened Wrappers
  import opened FormRules
  import opened AccountForm
  import AuthMiddleware

  /** This page's message for an empty confirmation. */
  const ConfirmMissing: string := "Please confirm the password"

  const AuthErrorMessage: string := "Authentication error. Please log in again."

  /** What a submit ends in. */
  datatype Submission =
    | Invalid                                                      // validation failed; nothing sent
    | AuthError(message: string)                                   // no administrator token; nothing sent
    | Post(body: map<string, string>, authorization: string)       // the request that is sent

  /**
   * `handleSubmit`: validation first; then `!adminUser || !adminUser.token` stops with an
   * authentication message; otherwise the five account fields are posted with the header
   * `Bearer <token>`. Nothing is sent unless the form is valid and a token is held.
   */
  method HandleSubmit(form: Form, adminUser: Option<map<string, string>>) returns (errors: Errors, s: Submission)
    requires Fields <= form.Keys
    ensures errors.Keys <= Fields
    ensures Lookup(errors, "name") == NameError(form["name"])
    ensures Lookup(errors, "email") == EmailError(form["email"])
    ensures Lookup(errors, "phone") == PhoneError(form["phone"])
    ensures Lookup(errors, "aadhar") == AadharError(form["aadhar"])
    ensures Lookup(errors, "password") == PasswordError(form["password"])
    ensures Lookup(errors, "confirmPassword") == ConfirmError(form["password"], form["confirmPassword"], ConfirmMissing)
    ensures s == Invalid <==> errors != map[]
    ensures s == Invalid <==> !RulesHold(form)
    ensures var token := if adminUser.Some? then Lookup(adminUser.value, "token") else None;
      RulesHold(form) ==>
        if !Truthy(token) then s == AuthError(AuthErrorMessage)
        else s == Post(RequestBody(form), "Bearer " + token.value)
    ensures s.Post? ==> "confirmPassword" !in s.body
  {
    var valid;
    errors, valid := Validate(form, ConfirmMissing);
    if !valid {
      return errors, Invalid;
    }
    if adminUser.None? || !Truthy(Lookup(adminUser.value, "token")) {
      return errors, AuthError(AuthErrorMessage);
    }
    s := Post(RequestBody(form), "Bearer " + adminUser.value["token"]);
  }

  /**
   * The header the page sends gets past `protect`'s prefix test, and for a space-free token
   * `protect` reads back exactly the token the page holds.
   */
  lemma HeaderReachesProtect(token: string)
    requires ' ' !in token
    ensures AuthMiddleware.StartsWith("Bearer " + token, "Bearer")
    ensures AuthMiddleware.TokenOf("Bearer " + token) == Some(token)
  {
    AuthMiddleware.TokenOfBearer(token);
    assert ("Bearer " + token)[..6] == "Bearer";
  }
}
