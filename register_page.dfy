/**
 * The citizen registration page (E-FIR/src/pages/RegisterPage.js): the account form, its
 * submit handler, and how the request it sends meets the backend's `registerUser`.
 */
module RegisterPage {
  import opened Wrappers
  import opened Text
  import opened FormRules
  import opened AccountForm
  import UserController

  /** This page's message for an empty confirmation. */
  const ConfirmMissing: string := "Please confirm your password"

  /** The form's initial state: all six fields empty. */
  const InitialForm: Form := map k | k in Fields :: ""

  /** The initial form violates every rule, so submitting it at once records a message for every field. */
  lemma InitialFormInvalid()
    ensures Fields <= InitialForm.Keys
    ensures !RulesHold(InitialForm)
    ensures NameError(InitialForm["name"]) == Some("Name is required")
    ensures EmailError(InitialForm["email"]) == Some("Email is required")
    ensures ConfirmError(InitialForm["password"], InitialForm["confirmPassword"], ConfirmMissing) == Some(ConfirmMissing)
  {
    assert InitialForm["name"] == "";
    assert Trim("") == "";
  }

  /**
   * `handleSubmit`: validate; an invalid form sends nothing. A valid one posts the five
   * account fields (never `confirmPassword`) to `/users/register`.
   */
  method HandleSubmit(form: Form) returns (errors: Errors, posted: Option<map<string, string>>)
    requires Fields <= form.Keys
    ensures errors.Keys <= Fields
    ensures Lookup(errors, "name") == NameError(form["name"])
    ensures Lookup(errors, "email") == EmailError(form["email"])
    ensures Lookup(errors, "phone") == PhoneError(form["phone"])
    ensures Lookup(errors, "aadhar") == AadharError(form["aadhar"])
    ensures Lookup(errors, "password") == PasswordError(form["password"])
    ensures Lookup(errors, "confirmPassword") == ConfirmError(form["password"], form["confirmPassword"], ConfirmMissing)
    ensures posted.Some? <==> errors == map[]
    ensures posted.Some? <==> RulesHold(form)
    ensures posted.Some? ==> posted.value == RequestBody(form) && "confirmPassword" !in posted.value
  {
    var valid;
    errors, valid := Validate(form, ConfirmMissing);
    if !valid {
      return errors, None;
    }
    posted := Some(RequestBody(form));
  }

  /**
   * What a valid form posts always gets past `registerUser`'s missing-field check, carrying
   * the form's own values; only the uniqueness checks can still refuse it.
   */
  lemma PostedBodyIsComplete(form: Form)
    requires Fields <= form.Keys && RulesHold(form)
    ensures UserController.AllProvided(UserController.RegisterBodyOf(RequestBody(form)))
    ensures UserController.RegisterBodyOf(RequestBody(form)) == UserController.RegisterBody(
      Some(form["name"]), Some(form["email"]), Some(form["password"]), Some(form["phone"]), Some(form["aadhar"]))
  {
  }
}
