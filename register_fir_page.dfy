/**
 * The FIR registration page (E-FIR/src/pages/RegisterFIRPage.js): a profile gate before
 * anything else, four rules on the incident fields, a token check, and a request body whose
 * complainant fields come from the signed-in user and whose accused name defaults to 'Unknown'.
 */
module RegisterFirPage {
  import opened Wrappers
  import opened FormRules
  import opened FirNumber
  import FirRoutes

  const Fields: set<string> := {"incidentType", "incidentDate", "incidentLocation", "description", "accusedName"}

  /** The fields `validateForm` checks: all but the accused name. */
  const Checked: set<string> := {"incidentType", "incidentDate", "incidentLocation", "description"}

  /** The form's initial state: every field empty. */
  const InitialForm: Form := map k | k in Fields :: ""

  const TypeMessage: string := "Please select an incident type"
  const DateMessage: string := "Incident date is required"
  const LocationMessage: string := "Incident location is required"
  const DescriptionMessage: string := "Please provide a detailed description (at least 20 characters)"
  const ProfileMessage: string := "Please complete your profile with name and phone number first"
  const LoggedOutMessage: string := "You must be logged in to register an FIR"
  const AccusedDefault: string := "Unknown"

  /** Every rule of the form holds; nothing is trimmed on this page. */
  predicate RulesHold(form: Form)
    requires Fields <= form.Keys
  {
    && form["incidentType"] != "" && form["incidentDate"] != "" && form["incidentLocation"] != ""
    && DetailedDescription(form["description"])
  }

  /** `user && user.name && user.phone`. */
  predicate ProfileComplete(user: Option<map<string, string>>) {
    user.Some? && Truthy(Lookup(user.value, "name")) && Truthy(Lookup(user.value, "phone"))
  }

  /** The four messages recorded one after another into an empty `newErrors`. */
  function Collect(kind: Option<string>, date: Option<string>, location: Option<string>, description: Option<string>)
      : (errors: Errors)
    ensures errors.Keys <= Checked
    ensures Lookup(errors, "incidentType") == kind && Lookup(errors, "incidentDate") == date
    ensures Lookup(errors, "incidentLocation") == location && Lookup(errors, "description") == description
  {
    var e := Put(map[], "incidentType", kind);
    var e := Put(e, "incidentDate", date);
    var e := Put(e, "incidentLocation", location);
    Put(e, "description", description)
  }

  /**
   * `validateForm`: type, date and location must be non-empty and the description at least
   * 20 characters. Valid exactly when no message was recorded, which is exactly when every rule holds.
   */
  method Validate(form: Form) returns (errors: Errors, valid: bool)
    requires Fields <= form.Keys
    ensures errors.Keys <= Checked
    ensures Lookup(errors, "incidentType") == RequireValue(form["incidentType"], TypeMessage)
    ensures Lookup(errors, "incidentDate") == RequireValue(form["incidentDate"], DateMessage)
    ensures Lookup(errors, "incidentLocation") == RequireValue(form["incidentLocation"], LocationMessage)
    ensures Lookup(errors, "description") == RequireDetail(form["description"], DescriptionMessage)
    ensures valid <==> errors == map[]
    ensures valid <==> RulesHold(form)
  {
    errors := Collect(
      RequireValue(form["incidentType"], TypeMessage),
      RequireValue(form["incidentDate"], DateMessage),
      RequireValue(form["incidentLocation"], LocationMessage),
      RequireDetail(form["description"], DescriptionMessage));
    valid := |errors| == 0;
  }

  /** The keys of the body this page posts. */
  const SentKeys: set<string> := {"firNumber", "complainantName", "complainantPhone", "incidentType", "incidentDate",
    "incidentLocation", "description", "accusedName"}

  /**
   * `firData`: the generated number, the user's name and phone, the four incident fields
   * copied from the form, and the accused name or 'Unknown'. No other key is sent.
   */
  function FirData(user: map<string, string>, form: Form, now: nat): (body: map<string, string>)
    requires "name" in user && "phone" in user && Fields <= form.Keys
    ensures body.Keys == SentKeys
    ensures body["firNumber"] == FirNumberAt(now)
    ensures body["complainantName"] == user["name"] && body["complainantPhone"] == user["phone"]
    ensures body["incidentType"] == form["incidentType"] && body["incidentDate"] == form["incidentDate"]
    ensures body["incidentLocation"] == form["incidentLocation"] && body["description"] == form["description"]
    ensures body["accusedName"] == if form["accusedName"] == "" then AccusedDefault else form["accusedName"]
  {
    map[
      "firNumber" := FirNumberAt(now),
      "complainantName" := user["name"],
      "complainantPhone" := user["phone"],
      "incidentType" := form["incidentType"],
      "incidentDate" := form["incidentDate"],
      "incidentLocation" := form["incidentLocation"],
      "description" := form["description"],
      "accusedName" := OrDefault(Some(form["accusedName"]), AccusedDefault)]
  }

  /** What a submit ends in. */
  datatype Submission =
    | IncompleteProfile(message: string)                         // validation not run; sent to the profile page
    | Invalid                                                    // validation failed; nothing sent
    | LoggedOut(message: string)                                 // no token: the page calls `logout()`
    | Post(body: map<string, string>, authorization: string)     // the request that is sent

  /**
   * `handleSubmit`: a user without a name or phone is stopped before validation runs (the
   * recorded errors stay as they were); then validation; then a missing token logs the user
   * out; otherwise the body is posted with the header `Bearer <token>`.
   */
  method HandleSubmit(form: Form, errors0: Errors, user: Option<map<string, string>>, now: nat)
      returns (errors: Errors, s: Submission)
    requires Fields <= form.Keys
    ensures !ProfileComplete(user) ==> s == IncompleteProfile(ProfileMessage) && errors == errors0
    ensures ProfileComplete(user) ==> errors.Keys <= Checked
    ensures ProfileComplete(user) ==>
      && Lookup(errors, "incidentType") == RequireValue(form["incidentType"], TypeMessage)
      && Lookup(errors, "incidentDate") == RequireValue(form["incidentDate"], DateMessage)
      && Lookup(errors, "incidentLocation") == RequireValue(form["incidentLocation"], LocationMessage)
      && Lookup(errors, "description") == RequireDetail(form["description"], DescriptionMessage)
    ensures ProfileComplete(user) ==> (s == Invalid <==> errors != map[])
    ensures ProfileComplete(user) ==> (s == Invalid <==> !RulesHold(form))
    ensures ProfileComplete(user) && RulesHold(form) ==>
      var token := Lookup(user.value, "token");
      if !Truthy(token) then s == LoggedOut(LoggedOutMessage)
      else s == Post(FirData(user.value, form, now), "Bearer " + token.value)
  {
    if !ProfileComplete(user) {
      return errors0, IncompleteProfile(ProfileMessage);
    }
    var valid;
    errors, valid := Validate(form);
    if !valid {
      return errors, Invalid;
    }
    if !Truthy(Lookup(user.value, "token")) {
      return errors, LoggedOut(LoggedOutMessage);
    }
    s := Post(FirData(user.value, form, now), "Bearer " + user.value["token"]);
  }

  /**
   * What this page posts always gets past the create route's required-field check, and the
   * accused name it sends is non-empty, so the server stores it as sent: 'Unknown' exactly
   * when the form's field was left empty or typed as 'Unknown'.
   */
  lemma PostedBodyIsComplete(user: map<string, string>, form: Form, requester: nat, now: nat)
    requires ProfileComplete(Some(user)) && Fields <= form.Keys && RulesHold(form)
    ensures var b := FirRoutes.FirBodyOf(FirData(user, form, now));
      && FirRoutes.RequiredPresent(b)
      && b.complainantName == Some(user["name"]) && b.complainantPhone == Some(user["phone"])
      && FirRoutes.NewFirInput(b, requester).accusedName == b.accusedName
      && (b.accusedName == Some(AccusedDefault) <==> form["accusedName"] == "" || form["accusedName"] == AccusedDefault)
  {
    var body := FirData(user, form, now);
    assert "incidentType" in Checked && "incidentDate" in Checked;
    assert "incidentLocation" in Checked && "description" in Checked;
  }
}
