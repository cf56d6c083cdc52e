/**
 * The profile-completion page (E-FIR/src/pages/CompleteProfilePage.js): a phone and an
 * aadhar number. Here the required check is made on the trimmed value and the format check
 * on the value as typed, so surrounding spaces give the format message, not the required one.
 */
module CompleteProfilePage {
  import opened Wrappers
  import opened Text
  import opened FormRules

  const Fields: set<string> := {"phone", "aadhar"}

  /** The form's initial state. */
  const InitialForm: Form := map["phone" := "", "aadhar" := ""]

  function PhoneError(phone: string): (e: Option<string>)
    ensures e.Some? <==> !ValidPhone(phone)
    ensures e.Some? ==> e.value == if IsBlank(phone) then "Phone number is required" else "Phone number must be 10 digits"
  {
    if Trim(phone) == "" then Some("Phone number is required")
    else if !ValidPhone(phone) then Some("Phone number must be 10 digits")
    else None
  }

  function AadharError(aadhar: string): (e: Option<string>)
    ensures e.Some? <==> !ValidAadhar(aadhar)
    ensures e.Some? ==> e.value == if IsBlank(aadhar) then "Aadhar number is required" else "Aadhar number must be 12 digits"
  {
    if Trim(aadhar) == "" then Some("Aadhar number is required")
    else if !ValidAadhar(aadhar) then Some("Aadhar number must be 12 digits")
    else None
  }

  /** A phone typed with a surrounding space is refused for its format, not as missing. */
  lemma PaddedPhoneIsMalformed(digits: string)
    requires ValidPhone(digits)
    ensures PhoneError(" " + digits) == Some("Phone number must be 10 digits")
  {
    assert !IsSpace(digits[0]);
    assert (" " + digits)[1] == digits[0];
  }

  /**
   * `validateForm`: at most one message per field; valid exactly when none was recorded,
   * which is exactly when both numbers have the right number of digits.
   */
  method Validate(form: Form) returns (errors: Errors, valid: bool)
    requires Fields <= form.Keys
    ensures errors.Keys <= Fields
    ensures Lookup(errors, "phone") == PhoneError(form["phone"])
    ensures Lookup(errors, "aadhar") == AadharError(form["aadhar"])
    ensures valid <==> errors == map[]
    ensures valid <==> ValidPhone(form["phone"]) && ValidAadhar(form["aadhar"])
  {
    var phoneE, aadharE := PhoneError(form["phone"]), AadharError(form["aadhar"]);
    errors := map[];
    errors := Put(errors, "phone", phoneE);
    errors := Put(errors, "aadhar", aadharE);
    valid := |errors| == 0;
  }

  /** `handleSubmit`: `completeProfile(phone, aadhar)` is called, with the values as typed, exactly when the form is valid. */
  method HandleSubmit(form: Form) returns (errors: Errors, call: Option<(string, string)>)
    requires Fields <= form.Keys
    ensures call.Some? <==> errors == map[]
    ensures call.Some? <==> ValidPhone(form["phone"]) && ValidAadhar(form["aadhar"])
    ensures call.Some? ==> call.value == (form["phone"], form["aadhar"])
    ensures Lookup(errors, "phone") == PhoneError(form["phone"])
    ensures Lookup(errors, "aadhar") == AadharError(form["aadhar"])
  {
    var valid;
    errors, valid := Validate(form);
    if !valid {
      return errors, None;
    }
    call := Some((form["phone"], form["aadhar"]));
  }
}
