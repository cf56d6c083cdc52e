/**
 * The account form shared by the citizen registration page (E-FIR/src/pages/RegisterPage.js)
 * and the police registration page (E-FIR/src/pages/admin/RegisterPolicePage.js): six
 * fields, the same rules, and the same request body. The pages differ only in the message
 * for a missing confirmation and in what they check before sending.
 */
module AccountForm {
  import opened Wrappers
  import opened Text
  import opened FormRules

  const Fields: set<string> := {"name", "email", "phone", "aadhar", "password", "confirmPassword"}

  // ---------------------------------------------------------------------------
  // One message per field: the required check first, then the format check

  function NameError(name: string): (e: Option<string>)
    ensures e.Some? <==> IsBlank(name)
    ensures e.Some? ==> e.value == "Name is required"
  {
    if Trim(name) == "" then Some("Name is required") else None
  }

  function EmailError(email: string): (e: Option<string>)
    ensures e.Some? <==> !EmailShape(email)
    ensures e.Some? ==> e.value == if email == "" then "Email is required" else "Please enter a valid email"
  {
    ValidEmailIffShape(email);
    if email == "" then Some("Email is required")
    else if !ValidEmail(email) then Some("Please enter a valid email")
    else None
  }

  function PhoneError(phone: string): (e: Option<string>)
    ensures e.Some? <==> !ValidPhone(phone)
    ensures e.Some? ==> e.value == if phone == "" then "Phone number is required" else "Phone number must be 10 digits"
  {
    if phone == "" then Some("Phone number is required")
    else if !ValidPhone(phone) then Some("Phone number must be 10 digits")
    else None
  }

  function AadharError(aadhar: string): (e: Option<string>)
    ensures e.Some? <==> !ValidAadhar(aadhar)
    ensures e.Some? ==> e.value == if aadhar == "" then "Aadhar number is required" else "Aadhar number must be 12 digits"
  {
    if aadhar == "" then Some("Aadhar number is required")
    else if !ValidAadhar(aadhar) then Some("Aadhar number must be 12 digits")
    else None
  }

  function PasswordError(password: string): (e: Option<string>)
    ensures e.Some? <==> !LongEnoughPassword(password)
    ensures e.Some? ==> e.value == if password == "" then "Password is required" else "Password must be at least 6 characters"
  {
    if password == "" then Some("Password is required")
    else if JsLength(password) < 6 then Some("Password must be at least 6 characters")
    else None
  }

  function ConfirmError(password: string, confirmPassword: string, missing: string): (e: Option<string>)
    ensures e.Some? <==> confirmPassword == "" || confirmPassword != password
    ensures e.Some? ==> e.value == if confirmPassword == "" then missing else "Passwords do not match"
  {
    if confirmPassword == "" then Some(missing)
    else if password != confirmPassword then Some("Passwords do not match")
    else None
  }

  /** Every rule of the form holds. */
  predicate RulesHold(form: Form)
    requires Fields <= form.Keys
  {
    && !IsBlank(form["name"])
    && ValidEmail(form["email"])
    && ValidPhone(form["phone"])
    && ValidAadhar(form["aadhar"])
    && LongEnoughPassword(form["password"])
    && form["confirmPassword"] != "" && form["confirmPassword"] == form["password"]
  }

  /** The six messages recorded one after another into an empty `newErrors`. */
  function Collect(name: Option<string>, email: Option<string>, phone: Option<string>, aadhar: Option<string>,
                   password: Option<string>, confirm: Option<string>): (errors: Errors)
    ensures errors.Keys <= Fields
    ensures Lookup(errors, "name") == name && Lookup(errors, "email") == email
    ensures Lookup(errors, "phone") == phone && Lookup(errors, "aadhar") == aadhar
    ensures Lookup(errors, "password") == password && Lookup(errors, "confirmPassword") == confirm
  {
    var e := Put(map[], "name", name);
    var e := Put(e, "email", email);
    var e := Put(e, "phone", phone);
    var e := Put(e, "aadhar", aadhar);
    var e := Put(e, "password", password);
    Put(e, "confirmPassword", confirm)
  }

  /**
   * `validateForm`: each field gets the message its rule gives it, and nothing else gets
   * one; the form is valid exactly when no message was recorded, which is exactly when
   * every rule holds. `confirmMissing` is the page's message for an empty confirmation.
   */
  method Validate(form: Form, confirmMissing: string) returns (errors: Errors, valid: bool)
    requires Fields <= form.Keys
    ensures errors.Keys <= Fields
    ensures Lookup(errors, "name") == NameError(form["name"])
    ensures Lookup(errors, "email") == EmailError(form["email"])
    ensures Lookup(errors, "phone") == PhoneError(form["phone"])
    ensures Lookup(errors, "aadhar") == AadharError(form["aadhar"])
    ensures Lookup(errors, "password") == PasswordError(form["password"])
    ensures Lookup(errors, "confirmPassword") == ConfirmError(form["password"], form["confirmPassword"], confirmMissing)
    ensures valid <==> errors == map[]
    ensures valid <==> RulesHold(form)
  {
    var name, email, phone, aadhar := form["name"], form["email"], form["phone"], form["aadhar"];
    var password, confirmPassword := form["password"], form["confirmPassword"];
    errors := Collect(NameError(name), EmailError(email), PhoneError(phone), AadharError(aadhar),
      PasswordError(password), ConfirmError(password, confirmPassword, confirmMissing));
    valid := |errors| == 0;
  }

  /** The object the page posts: the five account fields, never `confirmPassword`. */
  function RequestBody(form: Form): (body: map<string, string>)
    requires Fields <= form.Keys
    ensures body.Keys == Fields - {"confirmPassword"}
    ensures forall k :: k in body ==> body[k] == form[k]
  {
    map k | k in Fields - {"confirmPassword"} :: form[k]
  }
}
