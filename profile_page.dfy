/**
 * The profile page (E-FIR/src/pages/ProfilePage.js): an edit mode over a name, email and
 * phone form. Saving sends `updateUser` only the fields whose trimmed value differs from the
 * stored one; the email is shown but never sent.
 */
module ProfilePage {
  import opened Wrappers
  import opened Text
  import opened FormRules

  /** `{name: user.name || '', email: user.email || '', phone: user.phone || ''}`: the form as loaded or reset. */
  function FormOf(user: map<string, string>): (f: Form)
    ensures f.Keys == {"name", "email", "phone"}
    ensures f["name"] == FieldOr(Some(user), "name") && f["email"] == FieldOr(Some(user), "email")
    ensures f["phone"] == FieldOr(Some(user), "phone")
  {
    map["name" := FieldOr(Some(user), "name"), "email" := FieldOr(Some(user), "email"),
        "phone" := FieldOr(Some(user), "phone")]
  }

  /**
   * `diff` is the `updatedUserData` object for this form and stored user: `name` when the
   * trimmed name is not `user.name`, `phone` when the trimmed phone is not `user.phone` (an
   * absent stored field always differs), each holding the trimmed value, and nothing else.
   */
  predicate IsDiff(form: Form, user: map<string, string>, diff: map<string, string>)
    requires "name" in form && "phone" in form
  {
    && diff.Keys <= {"name", "phone"}
    && ("name" in diff <==> Some(Trim(form["name"])) != Lookup(user, "name"))
    && ("phone" in diff <==> Some(Trim(form["phone"])) != Lookup(user, "phone"))
    && ("name" in diff ==> diff["name"] == Trim(form["name"]))
    && ("phone" in diff ==> diff["phone"] == Trim(form["phone"]))
  }

  /** `updatedUserData`, filled field by field; the email is never part of it. */
  method ChangedFields(form: Form, user: map<string, string>) returns (diff: map<string, string>)
    requires "name" in form && "phone" in form
    ensures IsDiff(form, user, diff)
    ensures "email" !in diff
    ensures diff == map[] <==>
      Some(Trim(form["name"])) == Lookup(user, "name") && Some(Trim(form["phone"])) == Lookup(user, "phone")
  {
    diff := map[];
    var name := Trim(form["name"]);
    if Some(name) != Lookup(user, "name") {
      diff := diff["name" := name];
    }
    var phone := Trim(form["phone"]);
    if Some(phone) != Lookup(user, "phone") {
      diff := diff["phone" := phone];
    }
    assert "name" in diff || "phone" in diff ==> diff != map[];
  }

  /**
   * Merging the diff into the stored user (what `updateUser` does) leaves it holding the
   * trimmed name and phone and every other field as it was.
   */
  lemma MergedUserAgrees(form: Form, user: map<string, string>, diff: map<string, string>)
    requires "name" in form && "phone" in form && IsDiff(form, user, diff)
    ensures Lookup(user + diff, "name") == Some(Trim(form["name"]))
    ensures Lookup(user + diff, "phone") == Some(Trim(form["phone"]))
    ensures forall k :: k in user && k !in diff ==> k in user + diff && (user + diff)[k] == user[k]
    ensures (user + diff).Keys == user.Keys + diff.Keys
  {
  }

  /**
   * Once the merged record comes back as the `user` prop, the reloaded form shows the
   * trimmed name and phone that were saved, and the email it showed before.
   */
  lemma SaveReloadsTrimmed(form: Form, user: map<string, string>, diff: map<string, string>)
    requires "name" in form && "phone" in form && IsDiff(form, user, diff)
    ensures FormOf(user + diff)["name"] == Trim(form["name"])
    ensures FormOf(user + diff)["phone"] == Trim(form["phone"])
    ensures FormOf(user + diff)["email"] == FormOf(user)["email"]
  {
    MergedUserAgrees(form, user, diff);
  }

  /** After the merge, submitting the same form again finds nothing to send. */
  lemma ResubmitSendsNothing(form: Form, user: map<string, string>, diff: map<string, string>,
                             again: map<string, string>)
    requires "name" in form && "phone" in form && IsDiff(form, user, diff)
    requires IsDiff(form, user + diff, again)
    ensures again == map[]
  {
    MergedUserAgrees(form, user, diff);
    assert "name" !in again;
    assert "phone" !in again;
    NothingElse(again);
  }

  /** A map whose only possible keys are `name` and `phone`, holding neither, is empty. */
  lemma NothingElse(m: map<string, string>)
    requires m.Keys <= {"name", "phone"} && "name" !in m && "phone" !in m
    ensures m == map[]
  {
    assert m.Keys == {};
  }

  /** The page's state: whether the form is shown for editing, and the form's contents. */
  class ProfileEditor {
    var editing: bool
    var form: Form

    /** The page as first shown for a signed-in user: not editing, the form loaded from the user. */
    constructor (user: map<string, string>)
      ensures !editing && form == FormOf(user)
    {
      editing := false;
      form := FormOf(user);
    }

    /** "Edit Profile". */
    method StartEditing()
      modifies this
      ensures editing && form == old(form)
    {
      editing := true;
    }

    /** `handleChange`: one field takes the typed value. */
    method HandleChange(name: string, value: string)
      modifies this
      ensures form == old(form)[name := value] && editing == old(editing)
    {
      form := form[name := value];
    }

    /**
     * `handleSubmit`: a blank name aborts with nothing sent and the mode unchanged.
     * Otherwise `updateUser` is called with the changed fields exactly when there are some,
     * and editing ends. The form itself is left as typed.
     */
    method HandleSubmit(user: map<string, string>) returns (aborted: bool, update: Option<map<string, string>>)
      requires "name" in form && "phone" in form
      modifies this
      ensures form == old(form)
      ensures aborted <==> IsBlank(old(form)["name"])
      ensures aborted ==> update.None? && editing == old(editing)
      ensures !aborted ==> !editing
      ensures update.Some? ==> update.value != map[] && "email" !in update.value
      ensures !aborted ==> (update.None? <==>
        Some(Trim(form["name"])) == Lookup(user, "name") && Some(Trim(form["phone"])) == Lookup(user, "phone"))
      ensures update.Some? ==> IsDiff(form, user, update.value)
    {
      if form["name"] == "" || Trim(form["name"]) == "" {
        return true, None;
      }
      var diff := ChangedFields(form, user);
      if |diff| > 0 {
        update := Some(diff);
      } else {
        update := None;
      }
      aborted := false;
      editing := false;
    }

    /**
     * The `useEffect` on `user`: whenever the `user` prop changes (after a save, App's
     * `updateUser` hands down the merged record) and is present, the form is reloaded from
     * it; the editing mode is untouched.
     */
    method UserChanged(user: Option<map<string, string>>)
      modifies this
      ensures user.Some? ==> form == FormOf(user.value)
      ensures user.None? ==> form == old(form)
      ensures editing == old(editing)
    {
      if user.Some? {
        form := FormOf(user.value);
      }
    }

    /** "Cancel": editing ends and the form is reset from the stored user. */
    method Cancel(user: map<string, string>)
      modifies this
      ensures !editing && form == FormOf(user)
    {
      editing := false;
      form := FormOf(user);
    }
  }
}
