/**
 * The FIR form component (E-FIR/src/components/fir/FIRForm.js): eight fields, two of them
 * prefilled from the signed-in user; seven rules checked before the token; and a request
 * body that is the generated FIR number followed by every form field, the accused name
 * included as typed.
 */
module FirForm {
  import opened Wrappers
  import opened Text
  import opened FormRules
  import opened FirNumber
  import FirRoutes

  const Fields: set<string> := {"complainantName", "complainantPhone", "complainantAddress", "accusedName",
    "incidentDate", "incidentLocation", "incidentType", "description"}

  /** The initial state: the user's name and phone (or ''), every other field empty. */
  function InitialForm(user: Option<map<string, string>>): (f: Form)
    ensures f.Keys == Fields
    ensures f["complainantName"] == FieldOr(user, "name") && f["complainantPhone"] == FieldOr(user, "phone")
    ensures forall k :: k in f && k != "complainantName" && k != "complainantPhone" ==> f[k] == ""
  {
    map k | k in Fields ::
      if k == "complainantName" then FieldOr(user, "name")
      else if k == "complainantPhone" then FieldOr(user, "phone")
      else ""
  }

  const NameMessage: string := "Name is required"
  const PhoneMessage: string := "Phone number is required"
  const AddressMessage: string := "Address is required"
  const DateMessage: string := "Incident date is required"
  const LocationMessage: string := "Incident location is required"
  const TypeMessage: string := "Please select incident type"
  const DescriptionMessage: string := "Description must be at least 20 characters"

  /** Every rule of the form holds. */
  predicate RulesHold(form: Form)
    requires Fields <= form.Keys
  {
    && !IsBlank(form["complainantName"]) && !IsBlank(form["complainantPhone"])
    && !IsBlank(form["complainantAddress"]) && form["incidentDate"] != ""
    && !IsBlank(form["incidentLocation"]) && form["incidentType"] != ""
    && DetailedDescription(form["description"])
  }

  /** The fields `validateForm` checks: all but the accused name. */
  const Checked: set<string> := {"complainantName", "complainantPhone", "complainantAddress", "incidentDate",
    "incidentLocation", "incidentType", "description"}

  /** The seven messages recorded one after another into an empty `newErrors`: each checked field that has one. */
  function Collect(name: Option<string>, phone: Option<string>, address: Option<string>, date: Option<string>,
                   location: Option<string>, kind: Option<string>, description: Option<string>): (errors: Errors)
    ensures errors.Keys <= Checked
    ensures Lookup(errors, "complainantName") == name && Lookup(errors, "complainantPhone") == phone
    ensures Lookup(errors, "complainantAddress") == address && Lookup(errors, "incidentDate") == date
    ensures Lookup(errors, "incidentLocation") == location && Lookup(errors, "incidentType") == kind
    ensures Lookup(errors, "description") == description
  {
    var message := (k: string) =>
      if k == "complainantName" then name
      else if k == "complainantPhone" then phone
      else if k == "complainantAddress" then address
      else if k == "incidentDate" then date
      else if k == "incidentLocation" then location
      else if k == "incidentType" then kind
      else description;
    map k | k in Checked && message(k).Some? :: message(k).value
  }

  /**
   * `validateForm`: the name, phone, address and location must be non-blank once trimmed,
   * the date and type non-empty, the description at least 20 characters; the accused name
   * is free. Valid exactly when no message was recorded, which is exactly when every rule holds.
   */
  method Validate(form: Form) returns (errors: Errors, valid: bool)
    requires Fields <= form.Keys
    ensures errors.Keys <= Checked
    ensures Lookup(errors, "complainantName") == RequireText(form["complainantName"], NameMessage)
    ensures Lookup(errors, "complainantPhone") == RequireText(form["complainantPhone"], PhoneMessage)
    ensures Lookup(errors, "complainantAddress") == RequireText(form["complainantAddress"], AddressMessage)
    ensures Lookup(errors, "incidentDate") == RequireValue(form["incidentDate"], DateMessage)
    ensures Lookup(errors, "incidentLocation") == RequireText(form["incidentLocation"], LocationMessage)
    ensures Lookup(errors, "incidentType") == RequireValue(form["incidentType"], TypeMessage)
    ensures Lookup(errors, "description") == RequireDetail(form["description"], DescriptionMessage)
    ensures valid <==> errors == map[]
    ensures valid <==> RulesHold(form)
  {
    errors := Collect(
      RequireText(form["complainantName"], NameMessage),
      RequireText(form["complainantPhone"], PhoneMessage),
      RequireText(form["complainantAddress"], AddressMessage),
      RequireValue(form["incidentDate"], DateMessage),
      RequireText(form["incidentLocation"], LocationMessage),
      RequireValue(form["incidentType"], TypeMessage),
      RequireDetail(form["description"], DescriptionMessage));
    valid := |errors| == 0;
  }

  /** `{ firNumber: ..., ...formData }`: every form field overrides the generated number's key. */
  function FirData(form: Form, now: nat): (body: map<string, string>)
    ensures body.Keys == form.Keys + {"firNumber"}
    ensures forall k :: k in form ==> body[k] == form[k]
    ensures "firNumber" !in form ==> body["firNumber"] == FirNumberAt(now)
  {
    map["firNumber" := FirNumberAt(now)] + form
  }

  /** What a submit ends in. */
  datatype Submission =
    | Invalid                                                       // validation failed; nothing sent
    | LoginRequired                                                 // no user token; sent to the login page
    | Post(body: map<string, string>, authorization: string)        // the request that is sent

  /**
   * `handleSubmit`: validation comes first, then `!user || !user.token` sends the user to
   * log in; otherwise the body is posted with the header `Bearer <token>`. The form as a
   * whole is sent: the accused name is not defaulted here.
   */
  method HandleSubmit(form: Form, user: Option<map<string, string>>, now: nat) returns (errors: Errors, s: Submission)
    requires Fields <= form.Keys
    ensures errors.Keys <= Checked
    ensures Lookup(errors, "complainantName") == RequireText(form["complainantName"], NameMessage)
    ensures Lookup(errors, "complainantPhone") == RequireText(form["complainantPhone"], PhoneMessage)
    ensures Lookup(errors, "complainantAddress") == RequireText(form["complainantAddress"], AddressMessage)
    ensures Lookup(errors, "incidentDate") == RequireValue(form["incidentDate"], DateMessage)
    ensures Lookup(errors, "incidentLocation") == RequireText(form["incidentLocation"], LocationMessage)
    ensures Lookup(errors, "incidentType") == RequireValue(form["incidentType"], TypeMessage)
    ensures Lookup(errors, "description") == RequireDetail(form["description"], DescriptionMessage)
    ensures s == Invalid <==> errors != map[]
    ensures s == Invalid <==> !RulesHold(form)
    ensures var token := if user.Some? then Lookup(user.value, "token") else None;
      RulesHold(form) ==>
        if !Truthy(token) then s == LoginRequired
        else s == Post(FirData(form, now), "Bearer " + token.value)
  {
    var valid;
    errors, valid := Validate(form);
    if !valid {
      return errors, Invalid;
    }
    if user.None? || !Truthy(Lookup(user.value, "token")) {
      return errors, LoginRequired;
    }
    s := Post(FirData(form, now), "Bearer " + user.value["token"]);
  }

  /**
   * A valid form's body gets past the create route's required-field check with the form's
   * own values; an empty accused name reaches the server as '' and is stored as 'Unknown'.
   */
  lemma PostedBodyIsComplete(form: Form, requester: nat, now: nat)
    requires form.Keys == Fields && RulesHold(form)
    ensures var b := FirRoutes.FirBodyOf(FirData(form, now));
      && FirRoutes.RequiredPresent(b)
      && b.firNumber == Some(FirNumberAt(now))
      && b.complainantName == Some(form["complainantName"])
      && b.description == Some(form["description"])
      && b.accusedName == Some(form["accusedName"])
      && (form["accusedName"] == "" ==>
            FirRoutes.NewFirInput(b, requester).accusedName == Some(FirRoutes.AccusedDefault))
  {
    assert "firNumber" !in form;
    var b := FirRoutes.FirBodyOf(FirData(form, now));
    assert b.complainantName == Some(form["complainantName"]);
    assert b.complainantPhone == Some(form["complainantPhone"]);
    assert b.incidentLocation == Some(form["incidentLocation"]);
  }
}
